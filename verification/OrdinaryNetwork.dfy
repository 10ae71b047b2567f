/**
 The ordinary-network transaction (script/network/ordinary_network.py): it keeps a journal with the
 original DNS settings of every interface it touches, replaces its own policy rules, routes and DNS
 settings, verifies them, and rolls back when a step fails.

 Every command may fail before or after it took effect, and the process may die before or after
 any command. `original` are the settings that the rest of the system gave each interface.
 */
module OrdinaryNetwork {
  import opened Wrappers
  import opened OrdinaryNetworkModel
  import opened OrdinaryNetworkRuns

  // ---------- the host ----------

  class Host {
    var w: World
    /** The source address, if any, that goes with an interface and gateway. */
    const sources: Sources
    /** History: how many possible commands were not done. */
    ghost var faults: nat

    constructor (w: World, sources: Sources)
      ensures this.w == w && this.sources == sources
    {
      this.w, this.sources := w, sources;
    }

    /** A command that changes something. */
    method Change(c: Command) returns (o: Exit)
      modifies this
      ensures Ends(old(w), c, o, w)
      ensures Faults(old(faults), faults, o, Possible(old(w), c))
    {
      var tookEffect: bool := *;
      o := *;
      if !Possible(w, c) {
        o := Failed;
        return;
      }
      if o == Done || (tookEffect && (o == Crashed || c != WriteState(None))) {
        w := Run(w, c);
      }
      if o != Done {
        faults := faults + 1;
      }
    }

    /** A command that only reads. */
    method Read() returns (o: Exit)
      modifies this`faults
      ensures Faults(old(faults), faults, o, true)
    {
      o := *;
      if o != Done {
        faults := faults + 1;
      }
    }
  }

  /** A part of the transaction stops at the first fault, and otherwise fails only if something is not as it
      must be. */
  predicate Faults(before: nat, after: nat, o: Exit, sound: bool) {
    if o == Done then after == before else after == before + 1 || (after == before && o == Failed && !sound)
  }

  /** The transaction moved on without losing anything: the invariant holds, the file is the same, and
      what belongs to others is untouched. */
  ghost predicate Quiet(before: World, w: World, original: map<string, Dns>) {
    && Inv(w, original) && w.file == before.file && w.dns.Keys == before.dns.Keys
    && Foreign(w) == Foreign(before) && (OursOnly(before) ==> OursOnly(w))
  }

  /** A command that leaves everything recoverable: it is covered by a record, or changes nothing. */
  predicate Harmless(w: World, c: Command) {
    (Covered(w, c) && OwnCommand(c) && (c.ReplaceRoute? || c.DeleteRoute? ==> OursOnly(w))) || Run(w, c) == w
  }

  lemma HarmlessIsQuiet(w: World, c: Command, original: map<string, Dns>)
    requires Inv(w, original) && Harmless(w, c)
    ensures Quiet(w, Run(w, c), original)
  {
    if Run(w, c) != w {
      if c.ReplaceRoute? || c.DeleteRoute? {
        OwnCommandKeepsForeign(w, c);
      } else {
        assert Run(w, c).rules - {MAIN_RULE, TABLE_RULE} == w.rules - {MAIN_RULE, TABLE_RULE};
      }
    }
  }

  method Step(h: Host, c: Command, ghost original: map<string, Dns>) returns (o: Exit)
    requires Inv(h.w, original) && Harmless(h.w, c)
    modifies h
    ensures Quiet(old(h.w), h.w, original) && Ends(old(h.w), c, o, h.w)
    ensures Faults(old(h.faults), h.faults, o, Possible(old(h.w), c))
  {
    HarmlessIsQuiet(h.w, c, original);
    o := h.Change(c);
  }

  /** Our rules and the routes of the table, unless something else is there. */
  method Resources(h: Host) returns (o: Exit, rules: seq<Rule>, routes: seq<string>)
    modifies h`faults
    ensures Faults(old(h.faults), h.faults, o, OursOnly(h.w))
    ensures o == Done ==> OursOnly(h.w) && Lists(OurRules(h.w), rules) && Lists(h.w.routes.Keys, routes)
  {
    rules, routes := [], [];
    o := h.Read();
    if o != Done {
      return;
    }
    var todo := h.w.rules;
    while todo != {}
      invariant todo <= h.w.rules
      invariant forall r :: r in rules <==> r in h.w.rules && r !in todo && r.priority in PRIORITIES
      invariant forall i, j :: 0 <= i < j < |rules| ==> rules[i] != rules[j]
      invariant forall r :: r in rules ==> r == MAIN_RULE || r == TABLE_RULE
    {
      var rule :| rule in todo;
      todo := todo - {rule};
      if rule.priority !in PRIORITIES {
        continue;
      }
      if rule != MAIN_RULE && rule != TABLE_RULE {
        return Failed, [], [];
      }
      rules := rules + [rule];
    }
    assert forall r :: r in h.w.rules && r.priority in PRIORITIES ==> r in rules;
    assert Lists(OurRules(h.w), rules);
    if exists d :: d in h.w.routes && h.w.routes[d].protocol != PROTOCOL {
      return Failed, [], [];
    }
    routes := Destinations(h);
  }

  method Destinations(h: Host) returns (routes: seq<string>)
    ensures Lists(h.w.routes.Keys, routes)
  {
    routes := [];
    var todo := h.w.routes.Keys;
    while todo != {}
      invariant todo <= h.w.routes.Keys && Lists(h.w.routes.Keys - todo, routes)
    {
      var dst :| dst in todo;
      todo := todo - {dst};
      routes := routes + [dst];
    }
  }

  method RemoveRoutes(h: Host, ghost original: map<string, Dns>) returns (o: Exit)
    requires Inv(h.w, original)
    modifies h
    ensures Quiet(old(h.w), h.w, original) && h.w.dns == old(h.w.dns)
    ensures Removes(old(h.w), o, h.w)
    ensures o == Done ==> NothingInstalled(h.w)
    ensures Faults(old(h.faults), h.faults, o, OursOnly(old(h.w)))
  {
    var rules, routes;
    o, rules, routes := Resources(h);
    if o != Done {
      return;
    }
    ghost var before := h.w;
    o := DeleteRules(h, rules, original);
    if o != Done {
      PerformsStops(before, RuleDeletions(rules), RouteDeletions(routes), o, h.w);
      return;
    }
    ghost var ruled := h.w;
    o := DeleteRoutes(h, routes, original);
    PerformsThen(before, RuleDeletions(rules), ruled, RouteDeletions(routes), o, h.w);
    assert forall r :: r in h.w.rules && r.priority in PRIORITIES ==> r in OurRules(h.w);
  }

  method DeleteRules(h: Host, rules: seq<Rule>, ghost original: map<string, Dns>) returns (o: Exit)
    requires Inv(h.w, original) && OursOnly(h.w) && Lists(OurRules(h.w), rules)
    modifies h
    ensures Quiet(old(h.w), h.w, original) && h.w.dns == old(h.w.dns) && h.w.routes == old(h.w.routes)
    ensures Performs(old(h.w), RuleDeletions(rules), o, h.w)
    ensures o == Done ==> OurRules(h.w) == {}
    ensures Faults(old(h.faults), h.faults, o, true)
  {
    ghost var before, cs := h.w, RuleDeletions(rules);
    for i := 0 to |rules|
      invariant Quiet(before, h.w, original) && h.w.dns == before.dns && h.w.routes == before.routes
      invariant Performs(before, cs[..i], Done, h.w) && h.faults == old(h.faults)
      invariant OurRules(h.w) == set r | r in rules[i..]
    {
      ghost var was := h.w;
      SuffixSet(rules, i);
      assert rules[i] in OurRules(h.w);
      o := Step(h, DeleteRule(rules[i]), original);
      PerformsNext(before, cs, i, was, o, h.w);
      if o != Done {
        return;
      }
      assert OurRules(h.w) == OurRules(was) - {rules[i]};
    }
    assert cs[..|cs|] == cs;
    o := Done;
  }

  method DeleteRoutes(h: Host, routes: seq<string>, ghost original: map<string, Dns>) returns (o: Exit)
    requires Inv(h.w, original) && OursOnly(h.w) && Lists(h.w.routes.Keys, routes)
    modifies h
    ensures Quiet(old(h.w), h.w, original) && h.w.dns == old(h.w.dns) && h.w.rules == old(h.w.rules)
    ensures Performs(old(h.w), RouteDeletions(routes), o, h.w)
    ensures o == Done ==> h.w.routes == map[]
    ensures Faults(old(h.faults), h.faults, o, true)
  {
    ghost var before, cs := h.w, RouteDeletions(routes);
    for i := 0 to |routes|
      invariant Quiet(before, h.w, original) && h.w.dns == before.dns && h.w.rules == before.rules
      invariant Performs(before, cs[..i], Done, h.w) && h.faults == old(h.faults)
      invariant forall d :: d in h.w.routes <==> d in routes[i..]
    {
      ghost var was := h.w;
      RouteGone(was.routes, routes, i);
      o := Step(h, DeleteRoute(routes[i]), original);
      PerformsNext(before, cs, i, was, o, h.w);
      if o != Done {
        return;
      }
    }
    assert cs[..|cs|] == cs;
    o := Done;
  }

  lemma RouteGone(table: map<string, Entry>, routes: seq<string>, i: nat)
    requires i < |routes| && forall d :: d in table <==> d in routes[i..]
    requires forall j, k :: 0 <= j < k < |routes| ==> routes[j] != routes[k]
    ensures forall d :: d in table - {routes[i]} <==> d in routes[i + 1..]
  {
    SuffixSet(routes, i);
  }

  /** Every interface in `backups` is on record, or has the settings in `backups` right now. */
  ghost predicate Pinned(w: World, backups: map<string, Dns>) {
    forall i :: i in backups && i in w.dns ==> Backed(w, i) || w.dns[i] == backups[i]
  }

  method RestoreDns(h: Host, backups: map<string, Dns>, ghost original: map<string, Dns>) returns (o: Exit)
    requires Inv(h.w, original) && Pinned(h.w, backups)
    modifies h
    ensures Quiet(old(h.w), h.w, original) && Pinned(h.w, backups)
    ensures Restores(old(h.w), backups, o, h.w)
    ensures h.w.rules == old(h.w.rules) && h.w.routes == old(h.w.routes)
    ensures forall i :: i in h.w.dns && i !in backups ==> h.w.dns[i] == old(h.w.dns)[i]
    ensures o == Done ==> forall i :: i in h.w.dns && i in backups ==> h.w.dns[i] == backups[i]
    ensures Faults(old(h.faults), h.faults, o, true)
  {
    var order := Interfaces(backups);
    o := Done;
    if backups == map[] {
      return;
    }
    o := h.Read();
    if o != Done {
      ProceedsAtOnce(h.w, Restorations(h.w.dns.Keys, backups, order), o);
      return;
    }
    o := RestoreAll(h, order, backups, original);
  }

  /** The interfaces in `order` before `k` have the settings in `backups`, and the others are as they were. */
  ghost predicate RestoredUpTo(before: World, w: World, backups: map<string, Dns>, order: seq<string>, k: nat)
    requires k <= |order| && forall i :: i in order ==> i in backups
  {
    forall i :: i in w.dns ==> i in before.dns && w.dns[i] == if i in order[..k] then backups[i] else before.dns[i]
  }

  lemma RestoredNext(before: World, was: World, w: World, backups: map<string, Dns>, order: seq<string>, k: nat)
    requires k < |order| && forall i :: i in order ==> i in backups
    requires RestoredUpTo(before, was, backups, order, k) && w.dns.Keys == was.dns.Keys
    requires forall i :: i in w.dns && i != order[k] ==> w.dns[i] == was.dns[i]
    requires order[k] in w.dns ==> w.dns[order[k]] == backups[order[k]]
    ensures RestoredUpTo(before, w, backups, order, k + 1)
  {
    assert order[..k + 1] == order[..k] + [order[k]];
  }

  /** One interface after the other. */
  method RestoreAll(h: Host, order: seq<string>, backups: map<string, Dns>, ghost original: map<string, Dns>)
    returns (o: Exit)
    requires Inv(h.w, original) && Pinned(h.w, backups) && Lists(backups.Keys, order)
    modifies h
    ensures Restoring(old(h.w), h.w, backups, original)
    ensures Performs(old(h.w), Restorations(old(h.w).dns.Keys, backups, order), o, h.w)
    ensures forall i :: i in h.w.dns && i !in backups ==> h.w.dns[i] == old(h.w).dns[i]
    ensures o == Done ==> forall i :: i in h.w.dns && i in backups ==> h.w.dns[i] == backups[i]
    ensures Faults(old(h.faults), h.faults, o, true)
  {
    ghost var before := h.w;
    o := Done;
    for k := 0 to |order|
      invariant Restoring(before, h.w, backups, original) && h.faults == old(h.faults) && o == Done
      invariant Performs(before, Restorations(before.dns.Keys, backups, order[..k]), Done, h.w)
      invariant RestoredUpTo(before, h.w, backups, order, k)
    {
      o := RestoreNext(h, order, k, backups, before, original);
      if o != Done {
        return;
      }
    }
    assert order[..|order|] == order;
  }

  method RestoreNext(h: Host, order: seq<string>, k: nat, backups: map<string, Dns>, ghost before: World,
                     ghost original: map<string, Dns>)
    returns (o: Exit)
    requires k < |order| && Lists(backups.Keys, order)
    requires Restoring(before, h.w, backups, original) && RestoredUpTo(before, h.w, backups, order, k)
    requires Performs(before, Restorations(before.dns.Keys, backups, order[..k]), Done, h.w)
    modifies h
    ensures Restoring(before, h.w, backups, original)
    ensures o == Done ==>
              && RestoredUpTo(before, h.w, backups, order, k + 1)
              && Performs(before, Restorations(before.dns.Keys, backups, order[..k + 1]), Done, h.w)
    ensures o != Done ==>
              && Performs(before, Restorations(before.dns.Keys, backups, order), o, h.w)
              && forall i :: i in h.w.dns && i !in backups ==> h.w.dns[i] == before.dns[i]
    ensures Faults(old(h.faults), h.faults, o, true)
  {
    ghost var was := h.w;
    o := Done;
    if order[k] in h.w.dns {
      o := RestoreOne(h, order[k], backups[order[k]], original);
      RestoringNext(before, was, h.w, order[k], backups, original);
      RestorationsNext(before, backups, order, k, was, o, h.w);
    } else {
      RestorationsSkip(before, backups, order, k);
    }
    if o == Done {
      RestoredNext(before, was, h.w, backups, order, k);
    }
  }

  ghost predicate Restoring(before: World, w: World, backups: map<string, Dns>, original: map<string, Dns>) {
    Quiet(before, w, original) && Pinned(w, backups) && w.rules == before.rules && w.routes == before.routes
  }

  lemma RestoringNext(before: World, was: World, w: World, i: string, backups: map<string, Dns>,
                      original: map<string, Dns>)
    requires Restoring(before, was, backups, original) && OnlyRecorded(was, w, i, original)
    ensures Restoring(before, w, backups, original)
  {
  }

  method Interfaces(backups: map<string, Dns>) returns (order: seq<string>)
    ensures Lists(backups.Keys, order)
  {
    order := [];
    var todo := backups.Keys;
    while todo != {}
      invariant todo <= backups.Keys && Lists(backups.Keys - todo, order)
    {
      var i :| i in todo;
      todo := todo - {i};
      order := order + [i];
    }
  }

  /** Only the settings of `i` changed since `before`, and only if they are on record. */
  ghost predicate OnlyRecorded(before: World, w: World, i: string, original: map<string, Dns>) {
    && Inv(w, original) && w == before.(dns := w.dns) && w.dns.Keys == before.dns.Keys
    && (forall k :: k in w.dns && k != i ==> w.dns[k] == before.dns[k])
    && (Backed(before, i) || w == before)
  }

  lemma RecordedNext(before: World, w: World, i: string, d: Dns, c: Command, o: Exit, after: World,
                     original: map<string, Dns>)
    requires OnlyRecorded(before, w, i, original) && i in before.dns && (Backed(before, i) || before.dns[i] == d)
    requires c in SetDns(i, d) && Ends(w, c, o, after)
    ensures OnlyRecorded(before, after, i, original)
  {
    if Backed(before, i) {
      RecordedChange(before, w, i, c, original);
    } else {
      assert w.dns[i] == d && Run(w, c) == w;
    }
  }

  lemma RecordedChange(before: World, w: World, i: string, c: Command, original: map<string, Dns>)
    requires OnlyRecorded(before, w, i, original) && i in before.dns && Backed(before, i)
    requires (c.SetServers? || c.SetDomains? || c.SetDefaultRoute?) && c.iface == i
    ensures OnlyRecorded(before, Run(w, c), i, original)
  {
  }

  method RestoreOne(h: Host, i: string, settings: Dns, ghost original: map<string, Dns>) returns (o: Exit)
    requires Inv(h.w, original) && i in h.w.dns && (Backed(h.w, i) || h.w.dns[i] == settings)
    modifies h
    ensures OnlyRecorded(old(h.w), h.w, i, original)
    ensures Performs(old(h.w), SetDns(i, settings), o, h.w)
    ensures o == Done ==> h.w.dns[i] == settings
    ensures Faults(old(h.faults), h.faults, o, true)
  {
    ghost var before := h.w;
    o := h.Change(SetServers(i, settings.servers));
    RecordedNext(before, before, i, settings, SetServers(i, settings.servers), o, h.w, original);
    if o != Done {
      return;
    }
    ghost var one := h.w;
    o := h.Change(SetDomains(i, settings.domains));
    RecordedNext(before, one, i, settings, SetDomains(i, settings.domains), o, h.w, original);
    PerformsThree(before, i, settings, one, o, h.w);
    if o != Done {
      return;
    }
    ghost var two := h.w;
    o := h.Change(SetDefaultRoute(i, settings.defaultRoute));
    RecordedNext(before, two, i, settings, SetDefaultRoute(i, settings.defaultRoute), o, h.w, original);
    PerformsLast(before, i, settings, one, two, o, h.w);
  }

  method SnapshotDns(h: Host, i: string) returns (o: Exit, settings: Dns)
    modifies h`faults
    ensures Faults(old(h.faults), h.faults, o, i in h.w.dns)
    ensures o == Done ==> i in h.w.dns && settings == h.w.dns[i]
  {
    settings := Dns([], [], false);
    o := h.Read();
    if o == Done {
      if i !in h.w.dns {
        return Failed, settings;
      }
      settings := h.w.dns[i];
    }
  }

  method SourceAddress(h: Host, c: Config) returns (o: Exit, src: string)
    modifies h`faults
    ensures Faults(old(h.faults), h.faults, o, (c.iface, c.gateway) in h.sources)
    ensures o == Done ==> (c.iface, c.gateway) in h.sources && src == h.sources[(c.iface, c.gateway)]
  {
    src := "";
    o := h.Read();
    if o == Done {
      if (c.iface, c.gateway) !in h.sources {
        return Failed, src;
      }
      src := h.sources[(c.iface, c.gateway)];
    }
  }

  /** Setting the DNS settings of the configuration would change nothing. */
  predicate AlreadyOurs(w: World, c: Config) {
    c.iface in w.dns ==> w.dns[c.iface] == OurDns(c)
  }

  /** The interface is there if it gets DNS settings. */
  predicate Available(w: World, c: Config) {
    c.dns != [] ==> c.iface in w.dns
  }

  /** Installs the routes, the rules and then the DNS settings. While the interface is on record the
      invariant holds throughout; only its settings are touched. */
  method Install(h: Host, c: Config, src: string, ghost original: map<string, Dns>) returns (o: Exit)
    requires Inv(h.w, original) && NothingInstalled(h.w) && Validated(c)
    modifies h
    ensures Installs(old(h.w), c, src, o, h.w)
    ensures c.dns == [] || Backed(old(h.w), c.iface) || AlreadyOurs(old(h.w), c) ==> Inv(h.w, original)
    ensures h.w.file == old(h.w.file) && h.w.dns.Keys == old(h.w.dns.Keys) && Foreign(h.w) == Foreign(old(h.w)) &&
              OursOnly(h.w)
    ensures forall i :: i in h.w.dns && (c.dns == [] || i != c.iface) ==> h.w.dns[i] == old(h.w.dns)[i]
    ensures o == Done && c.iface == "" ==> h.w == old(h.w)
    ensures o == Done && c.iface != "" ==> Installed(h.w, c, src)
    ensures Faults(old(h.faults), h.faults, o, Available(h.w, c))
  {
    if c.iface == "" {
      return Done;
    }
    ghost var before := h.w;
    o := InstallRoutes(h, c, src, original);
    if o != Done {
      PerformsStops(before, RouteInstallations(c, src), if c.dns != [] then SetDns(c.iface, OurDns(c)) else [], o, h.w);
      return;
    }
    if c.dns == [] {
      assert RouteInstallations(c, src) + [] == RouteInstallations(c, src);
      return;
    }
    ghost var routed := h.w;
    o := InstallDns(h, c, original);
    PerformsThen(before, RouteInstallations(c, src), routed, SetDns(c.iface, OurDns(c)), o, h.w);
  }

  /** The DNS settings of a configuration. The invariant survives if the interface is on record, or if
      this changes nothing, or if there is no such interface. */
  method InstallDns(h: Host, c: Config, ghost original: map<string, Dns>) returns (o: Exit)
    requires Inv(h.w, original)
    modifies h
    ensures Performs(old(h.w), SetDns(c.iface, OurDns(c)), o, h.w)
    ensures Backed(old(h.w), c.iface) || AlreadyOurs(old(h.w), c) ==> Inv(h.w, original)
    ensures h.w == old(h.w).(dns := h.w.dns) && h.w.dns.Keys == old(h.w.dns.Keys)
    ensures forall i :: i in h.w.dns && i != c.iface ==> h.w.dns[i] == old(h.w.dns)[i]
    ensures o == Done ==> c.iface in h.w.dns && h.w.dns[c.iface] == OurDns(c)
    ensures Faults(old(h.faults), h.faults, o, c.iface in h.w.dns)
  {
    ghost var before := h.w;
    o := h.Change(SetServers(c.iface, c.dns));
    if o != Done {
      return;
    }
    ghost var one := h.w;
    o := h.Change(SetDomains(c.iface, ["~."]));
    PerformsThree(before, c.iface, OurDns(c), one, o, h.w);
    if o != Done {
      return;
    }
    ghost var two := h.w;
    o := h.Change(SetDefaultRoute(c.iface, true));
    PerformsLast(before, c.iface, OurDns(c), one, two, o, h.w);
  }

  /** The routes and then the rules. */
  method InstallRoutes(h: Host, c: Config, src: string, ghost original: map<string, Dns>) returns (o: Exit)
    requires Inv(h.w, original) && NothingInstalled(h.w)
    modifies h
    ensures Quiet(old(h.w), h.w, original) && OursOnly(h.w) && h.w.dns == old(h.w.dns)
    ensures Performs(old(h.w), RouteInstallations(c, src), o, h.w)
    ensures o == Done ==> MAIN_RULE in h.w.rules && TABLE_RULE in h.w.rules && h.w.routes == Desired(c, src)
    ensures Faults(old(h.faults), h.faults, o, true)
  {
    ghost var before := h.w;
    ghost var routes := [ReplaceRoute(c.gateway + "/32", LinkRoute(c, src)),
                         ReplaceRoute("default", DefaultRoute(c, src))];
    ghost var rules := [AddRule(MAIN_RULE), AddRule(TABLE_RULE)];
    assert RouteInstallations(c, src) == routes + rules;
    o := InstallTwo(h, ReplaceRoute(c.gateway + "/32", LinkRoute(c, src)),
                    ReplaceRoute("default", DefaultRoute(c, src)),
                    original);
    if o != Done {
      PerformsStops(before, routes, rules, o, h.w);
      return;
    }
    DesiredRoutes(before, c, src);
    ghost var routed := h.w;
    o := InstallTwo(h, AddRule(MAIN_RULE), AddRule(TABLE_RULE), original);
    PerformsThen(before, routes, routed, rules, o, h.w);
  }

  lemma DesiredRoutes(w: World, c: Config, src: string)
    requires w.routes == map[]
    ensures Run(Run(w, ReplaceRoute(c.gateway + "/32", LinkRoute(c, src))),
                ReplaceRoute("default", DefaultRoute(c, src))) ==
              w.(routes := Desired(c, src))
  {
    LinkIsNotDefault(c.gateway);
  }

  /** Two commands that set up what is ours. */
  method InstallTwo(h: Host, one: Command, two: Command, ghost original: map<string, Dns>) returns (o: Exit)
    requires Inv(h.w, original) && OursOnly(h.w) && OwnCommand(one) && OwnCommand(two)
    requires (one.ReplaceRoute? && two.ReplaceRoute?) || (one.AddRule? && two.AddRule?)
    modifies h
    ensures Quiet(old(h.w), h.w, original) && h.w.dns == old(h.w.dns)
    ensures Performs(old(h.w), [one, two], o, h.w)
    ensures o == Done ==> h.w == Run(Run(old(h.w), one), two)
    ensures Faults(old(h.faults), h.faults, o, true)
  {
    ghost var before, cs := h.w, [one, two];
    o := Step(h, one, original);
    PerformsNext(before, cs, 0, before, o, h.w);
    if o != Done {
      return;
    }
    ghost var was := h.w;
    o := Step(h, two, original);
    PerformsNext(before, cs, 1, was, o, h.w);
    assert cs[..2] == cs;
  }

  /** No route leads elsewhere, and none has attributes that this program never sets. */
  predicate Mendable(w: World, c: Config) {
    forall d :: d in w.routes ==> (d == "default" || d == c.gateway + "/32") && w.routes[d].plain
  }

  /** Checks the whole table before it lists what is missing. */
  method PlanRepair(h: Host, c: Config, src: string) returns (o: Exit, plan: seq<Command>)
    requires OursOnly(h.w)
    modifies h`faults
    ensures Faults(old(h.faults), h.faults, o, Available(h.w, c) && Mendable(h.w, c))
    ensures o == Done ==>
              && Repairable(h.w, c, src) && (c.dns != [] ==> c.iface in h.w.dns)
              && plan == RepairPlan(h.w, c, src)
  {
    plan := [];
    var desired := Desired(c, src);
    var todo := h.w.routes.Keys;
    while todo != {}
      invariant todo <= h.w.routes.Keys
      invariant forall d :: d in h.w.routes && d !in todo ==> d in desired && h.w.routes[d].plain
    {
      var dst :| dst in todo;
      todo := todo - {dst};
      if dst !in desired || !h.w.routes[dst].plain {
        return Failed, [];
      }
    }
    LinkIsNotDefault(c.gateway);
    var link := c.gateway + "/32";
    if link !in h.w.routes || h.w.routes[link] != LinkRoute(c, src) {
      plan := plan + [ReplaceRoute(link, LinkRoute(c, src))];
    }
    if "default" !in h.w.routes || h.w.routes["default"] != DefaultRoute(c, src) {
      plan := plan + [ReplaceRoute("default", DefaultRoute(c, src))];
    }
    if MAIN_RULE !in h.w.rules {
      plan := plan + [AddRule(MAIN_RULE)];
    }
    if TABLE_RULE !in h.w.rules {
      plan := plan + [AddRule(TABLE_RULE)];
    }
    assert plan == RouteRepairs(h.w, c, src) + RuleRepairs(h.w);
    o := Done;
    if c.dns != [] {
      var dnsPlan;
      o, dnsPlan := PlanDnsRepair(h, c);
      plan := plan + dnsPlan;
    }
  }

  method PlanDnsRepair(h: Host, c: Config) returns (o: Exit, plan: seq<Command>)
    requires c.dns != []
    modifies h`faults
    ensures Faults(old(h.faults), h.faults, o, c.iface in h.w.dns)
    ensures o == Done ==> c.iface in h.w.dns && plan == DnsRepairs(h.w, c)
  {
    plan := [];
    var current;
    o, current := SnapshotDns(h, c.iface);
    if o != Done {
      return;
    }
    if current.servers != c.dns {
      plan := plan + [SetServers(c.iface, c.dns)];
    }
    if current.domains != ["~."] {
      plan := plan + [SetDomains(c.iface, ["~."])];
    }
    if !current.defaultRoute {
      plan := plan + [SetDefaultRoute(c.iface, true)];
    }
  }

  /** Nothing keeps the configuration from being checked. */
  predicate InOrder(w: World, sources: Sources, c: Config) {
    OursOnly(w) && Available(w, c) && Mendable(w, c) && (c.iface, c.gateway) in sources
  }

  /** The record says that `c` is in force, and has the settings that it replaced. */
  predicate Recorded(c: Config, saved: Option<Saved>) {
    && saved.Some? && !saved.value.pending && saved.value.config == c && c.iface != ""
    && (c.dns != [] ==> c.iface in saved.value.backups)
  }

  /** Read-only: whether `c` is in force and on record. */
  method CheckLocked(h: Host, c: Config, saved: Option<Saved>) returns (o: Exit, applied: bool)
    modifies h`faults
    ensures Faults(old(h.faults), h.faults, o, InOrder(h.w, h.sources, c))
    ensures o == Done && Recorded(c, saved) ==>
              SourceOf(h.sources, c).Some? && (applied <==> Installed(h.w, c, SourceOf(h.sources, c).value))
    ensures o == Done && applied ==>
              && c.iface != "" && saved.Some? && !saved.value.pending && saved.value.config == c
              && (c.dns != [] ==> c.iface in saved.value.backups)
              && (c.iface, c.gateway) in h.sources && Installed(h.w, c, h.sources[(c.iface, c.gateway)])
  {
    applied, o := false, Done;
    if saved.None? || saved.value.pending || saved.value.config != c || c.iface == "" {
      return;
    }
    if c.dns != [] && c.iface !in saved.value.backups {
      return;
    }
    var src;
    o, src := SourceAddress(h, c);
    if o != Done {
      return;
    }
    var rules, routes;
    o, rules, routes := Resources(h);
    if o != Done {
      return;
    }
    var plan;
    o, plan := PlanRepair(h, c, src);
    if o != Done {
      return;
    }
    RepairConverges(h.w, c, src);
    applied := plan == [];
  }

  // ---------- the transaction ----------

  /** All interfaces but those touched have their original settings. */
  ghost predicate OriginalExcept(w: World, original: map<string, Dns>, touched: set<string>) {
    forall i :: i in w.dns && i !in touched ==> i in original && w.dns[i] == original[i]
  }

  ghost predicate AllOriginal(w: World, original: map<string, Dns>) {
    forall i :: i in w.dns ==> i in original && w.dns[i] == original[i]
  }

  /** The backups in memory are right for every available interface. */
  ghost predicate Right(w: World, backups: map<string, Dns>, original: map<string, Dns>) {
    forall i :: i in backups && i in w.dns ==> i in original && backups[i] == original[i]
  }

  /** Once every recorded interface is restored, everything is original. */
  lemma RestoredIsOriginal(w: World, backups: map<string, Dns>, original: map<string, Dns>)
    requires Inv(w, original) && Right(w, backups, original)
    requires w.file.Some? ==> w.file.value.backups.Keys <= backups.Keys
    requires forall i :: i in w.dns && i in backups ==> w.dns[i] == backups[i]
    ensures AllOriginal(w, original)
  {
  }

  /** The new configuration is in force and recorded, and every other interface is as it was
      originally. */
  ghost predicate InForce(h: Host, c: Config, original: map<string, Dns>)
    reads h
  {
    && (c.iface == "" ==> NothingInstalled(h.w) && AllOriginal(h.w, original) && h.w.file == None)
    && (c.iface != "" ==>
          && (c.iface, c.gateway) in h.sources && Installed(h.w, c, h.sources[(c.iface, c.gateway)])
          && OriginalExcept(h.w, original, Touched(c))
          && h.w.file.Some? && h.w.file.value.config == c && !h.w.file.value.pending)
  }

  method Remove(h: Host, backups: map<string, Dns>, ghost original: map<string, Dns>) returns (o: Exit)
    requires Inv(h.w, original) && Pinned(h.w, backups) && Right(h.w, backups, original)
    requires h.w.file.Some? ==> h.w.file.value.backups.Keys <= backups.Keys
    modifies h
    ensures Quiet(old(h.w), h.w, original) && Clears(old(h.w), backups, o, h.w)
    ensures o == Done ==> NothingInstalled(h.w) && AllOriginal(h.w, original) && OursOnly(h.w)
    ensures Faults(old(h.faults), h.faults, o, OursOnly(old(h.w)))
  {
    o := RemoveRoutes(h, original);
    if o != Done {
      return;
    }
    o := RestoreDns(h, backups, original);
    if o == Done {
      RestoredIsOriginal(h.w, backups, original);
    }
  }

  /** The configuration can be put into force. */
  predicate Usable(w: World, sources: Sources, c: Config, src: string) {
    Available(w, c) && (c.iface != "" ==> SourceOf(sources, c) == Some(src))
  }

  /** The journalled part: remove, restore, install, verify, commit. If the final write took effect, the
      configuration was in force. */
  method Attempt(h: Host, c: Config, src: string, backups: map<string, Dns>, ghost original: map<string, Dns>)
    returns (o: Exit)
    requires Inv(h.w, original) && Validated(c) && h.w.file.Some? && h.w.file.value.backups == backups
    requires c.dns != [] ==> c.iface in backups
    modifies h
    ensures Attempts(h.sources, old(h.w), c, src, backups, o, h.w)
    ensures Inv(h.w, original) && Foreign(h.w) == Foreign(old(h.w)) && h.w.dns.Keys == old(h.w.dns.Keys)
    ensures h.w.file == old(h.w.file) || Written(h.sources, h.w, c, backups, original)
    ensures o == Failed && h.w.file != old(h.w.file) ==> c.iface != ""
    ensures o == Done ==> InForce(h, c, original)
    ensures OursOnly(old(h.w)) ==> OursOnly(h.w)
    ensures Faults(old(h.faults), h.faults, o, OursOnly(old(h.w)) && Usable(old(h.w), h.sources, c, src))
  {
    o := Remove(h, backups, original);
    if o != Done {
      return;
    }
    ghost var cleared := h.w;
    o := Install(h, c, src, original);
    if o != Done {
      AttemptStops(h.sources, old(h.w), c, src, backups, cleared, o, h.w);
      return;
    }
    ghost var installed := h.w;
    o := Commit(h, c, backups, original);
    AttemptEnds(h.sources, old(h.w), c, src, backups, cleared, installed, o, h.w);
  }

  /** The final write took effect. */
  ghost predicate Written(sources: Sources, w: World, c: Config, backups: map<string, Dns>, original: map<string, Dns>)
    requires c.dns != [] ==> c.iface in backups
  {
    && w.file == Committed(c, backups) && OriginalExcept(w, original, Touched(c))
    && (c.iface != "" ==> SourceOf(sources, c).Some? && (c.dns != [] ==> c.iface in w.dns))
  }

  lemma CommitEnds(sources: Sources, w: World, c: Config, backups: map<string, Dns>, o: Exit, after: World,
                   original: map<string, Dns>)
    requires Inv(w, original) && Validated(c) && w.file.Some? && w.file.value.backups == backups
    requires (c.dns != [] ==> c.iface in backups) && OriginalExcept(w, original, Touched(c))
    requires c.iface != "" ==> SourceOf(sources, c).Some? && Installed(w, c, SourceOf(sources, c).value)
    requires Ends(w, WriteState(Committed(c, backups)), o, after)
    ensures Inv(after, original) && after == w.(file := after.file)
    ensures after.file == w.file || Written(sources, after, c, backups, original)
    ensures o == Failed && after.file != w.file ==> c.iface != ""
  {
  }

  /** Verifies what was installed and makes the final write. */
  method Commit(h: Host, c: Config, backups: map<string, Dns>, ghost original: map<string, Dns>)
    returns (o: Exit)
    requires Inv(h.w, original) && Validated(c) && h.w.file.Some? && h.w.file.value.backups == backups
    requires c.dns != [] ==> c.iface in backups
    requires OriginalExcept(h.w, original, Touched(c)) && (c.iface == "" ==> NothingInstalled(h.w))
    modifies h
    ensures Commits(h.sources, old(h.w), c, backups, o, h.w)
    ensures Inv(h.w, original) && h.w == old(h.w).(file := h.w.file)
    ensures h.w.file == old(h.w.file) || Written(h.sources, h.w, c, backups, original)
    ensures o == Failed && h.w.file != old(h.w.file) ==> c.iface != ""
    ensures o == Done ==> InForce(h, c, original)
    ensures Faults(old(h.faults), h.faults, o,
                   c.iface == "" || (SourceOf(h.sources, c).Some? &&
                       Installed(old(h.w), c, SourceOf(h.sources, c).value)))
  {
    if c.iface != "" {
      var retained := Retained(c, backups);
      var applied;
      o, applied := CheckLocked(h, c, Some(Saved(c, retained, false)));
      if o != Done {
        return;
      }
      if !applied {
        o := Failed;
        return;
      }
      o := h.Change(WriteState(Some(Saved(c, retained, false))));
    } else {
      o := h.Change(WriteState(None));
    }
    CommitEnds(h.sources, old(h.w), c, backups, o, h.w, original);
  }

  /** What was recorded can be put back into force. */
  predicate Restorable(w: World, before: Option<Saved>, oldSource: Option<string>) {
    Available(w, ConfigOf(before)) && (ConfigOf(before).iface != "" ==> oldSource.Some?)
  }

  /** Restoring the previous configuration after a failure. */
  method Rollback(h: Host, before: Option<Saved>, oldConfig: Config, oldSource: Option<string>,
                  backups: map<string, Dns>, ghost original: map<string, Dns>)
    returns (o: Exit)
    requires Inv(h.w, original) && Pinned(h.w, backups) && Right(h.w, backups, original)
    requires h.w.file.Some? ==> h.w.file.value.backups.Keys <= backups.Keys
    requires FileSound(before) && oldConfig == (if before.Some? then before.value.config else SystemNetwork)
    requires before.Some? ==> forall i :: i in before.value.backups ==>
              i in backups && before.value.backups[i] == backups[i]
    modifies h
    ensures Foreign(h.w) == Foreign(old(h.w)) && h.w.dns.Keys == old(h.w.dns.Keys)
    ensures h.w.file == old(h.w.file) || h.w.file == before
    ensures RollsBack(old(h.w), before, oldSource, backups, o, h.w)
    ensures Inv(h.w, original) || Exposed(old(h.w), oldConfig, oldSource, original)
    ensures o == Done ==>
              && h.w.file == before && Inv(h.w, original)
              && (oldConfig.iface == "" ==> NothingInstalled(h.w) && AllOriginal(h.w, original))
              && (oldConfig.iface != "" ==> oldSource.Some? && Installed(h.w, oldConfig, oldSource.value))
    ensures Faults(old(h.faults), h.faults, o, OursOnly(old(h.w)) && Restorable(old(h.w), before, oldSource))
  {
    o := Remove(h, backups, original);
    if o != Done {
      return;
    }
    ghost var cleared := h.w;
    o := Reinstall(h, before, oldSource, original);
    assert RollsBackCleared(cleared, before, oldSource, o, h.w);
  }

  /** Brings back what `before` recorded once everything is removed. */
  method Reinstall(h: Host, before: Option<Saved>, oldSource: Option<string>, ghost original: map<string, Dns>)
      returns (o: Exit)
    requires Inv(h.w, original) && FileSound(before) && NothingInstalled(h.w) && AllOriginal(h.w, original) &&
              OursOnly(h.w)
    requires before.Some? ==> forall i :: i in before.value.backups && i in h.w.dns ==>
              i in original && before.value.backups[i] == original[i]
    modifies h
    ensures RollsBackCleared(old(h.w), before, oldSource, o, h.w)
    ensures Foreign(h.w) == Foreign(old(h.w)) && h.w.dns.Keys == old(h.w.dns.Keys)
    ensures h.w.file == old(h.w.file) || h.w.file == before
    ensures Inv(h.w, original) || Exposed(old(h.w), ConfigOf(before), oldSource, original)
    ensures o == Done ==>
              && h.w.file == before && Inv(h.w, original)
              && (ConfigOf(before).iface == "" ==> NothingInstalled(h.w) && AllOriginal(h.w, original))
              && (ConfigOf(before).iface != "" ==> oldSource.Some? && Installed(h.w, ConfigOf(before), oldSource.value))
    ensures Faults(old(h.faults), h.faults, o, Restorable(old(h.w), before, oldSource))
  {
    if ConfigOf(before).iface != "" && oldSource.None? {
      return Failed;
    }
    o := Install(h, ConfigOf(before), Address(oldSource), original);
    if o != Done {
      return;
    }
    o := h.Change(WriteState(before));
  }

  /** Restoring `c` replaces settings that are not on record. */
  ghost predicate Exposed(w: World, c: Config, source: Option<string>, original: map<string, Dns>) {
    && c.dns != [] && source.Some? && c.iface in w.dns && !Backed(w, c.iface)
    && !(c.iface in original && original[c.iface] == OurDns(c))
  }

  /** Bringing back missing resources of the configuration that is already recorded. */
  method RepairInPlace(h: Host, c: Config, src: string, ghost original: map<string, Dns>) returns (o: Exit)
    requires Inv(h.w, original) && OursOnly(h.w) && c.iface != "" && SourceOf(h.sources, c) == Some(src)
    requires h.w.file.Some? && h.w.file.value.config == c && !h.w.file.value.pending
    modifies h
    ensures Quiet(old(h.w), h.w, original)
    ensures (o != Done && h.w == old(h.w)) || Repairs(old(h.w), c, src, Ended(o, Incomplete), h.w)
    ensures o == Done ==> InForce(h, c, original)
    ensures Faults(old(h.faults), h.faults, o, Available(old(h.w), c) && Mendable(old(h.w), c))
  {
    var plan;
    o, plan := PlanRepair(h, c, src);
    if o != Done {
      return;
    }
    ghost var before := h.w;
    o := CarryOut(h, c, src, plan, original);
    if o != Done {
      assert Proceeds(before, plan, o, h.w);
      return;
    }
    DoneIsRunAll(before, plan, h.w);
    RepairConverges(before, c, src);
    InstalledIsInOrder(h.w, h.sources, c, src);
    var applied;
    o, applied := CheckLocked(h, c, h.w.file);
    if o == Done && !applied {
      o := Failed;
    }
    assert Proceeds(before, plan, o, h.w);
  }

  /** Carries out a repair plan, which touches nothing but what is ours and on record. */
  method CarryOut(h: Host, c: Config, src: string, plan: seq<Command>, ghost original: map<string, Dns>)
    returns (o: Exit)
    requires Inv(h.w, original) && OursOnly(h.w) && Available(h.w, c) && plan == RepairPlan(h.w, c, src)
    requires h.w.file.Some? && h.w.file.value.config == c
    modifies h
    ensures Quiet(old(h.w), h.w, original) && Performs(old(h.w), plan, o, h.w)
    ensures Faults(old(h.faults), h.faults, o, true)
  {
    ghost var before := h.w;
    RepairsAreCovered(h.w, c, src);
    for i := 0 to |plan|
      invariant Quiet(before, h.w, original) && OursOnly(h.w)
      invariant Performs(before, plan[..i], Done, h.w) && h.faults == old(h.faults)
    {
      assert plan[i] in plan;
      ghost var was := h.w;
      o := Step(h, plan[i], original);
      PerformsNext(before, plan, i, was, o, h.w);
      if o != Done {
        return;
      }
    }
    assert plan[..|plan|] == plan;
    o := Done;
  }

  lemma InstalledIsInOrder(w: World, sources: Sources, c: Config, src: string)
    requires Installed(w, c, src) && SourceOf(sources, c) == Some(src)
    ensures InOrder(w, sources, c)
  {
  }

  lemma RouteRepairsAreCovered(w: World, c: Config, src: string)
    ensures forall cmd :: cmd in RouteRepairs(w, c, src) + RuleRepairs(w) ==> Covered(w, cmd) && OwnCommand(cmd)
  {
  }

  lemma RepairsAreCovered(w: World, c: Config, src: string)
    requires FileSound(w.file) && w.file.Some? && w.file.value.config == c
    requires c.dns != [] ==> c.iface in w.dns
    ensures forall cmd :: cmd in RepairPlan(w, c, src) ==> Covered(w, cmd) && OwnCommand(cmd) && Possible(w, cmd)
  {
    RouteRepairsAreCovered(w, c, src);
  }

  /** Reads what the transaction needs, and the settings to record if the interface has none on
      record, and writes the journal. */
  method Prepare(h: Host, c: Config, ghost original: map<string, Dns>) returns (o: Exit, backups: map<string, Dns>)
    requires Inv(h.w, original) && Validated(c)
    modifies h
    ensures Faults(old(h.faults), h.faults, o, Available(h.w, c))
    ensures Inv(h.w, original)
    ensures (o != Done && h.w == old(h.w)) || Journalled(old(h.w), c, backups, o, h.w)
    ensures h.w == old(h.w).(file := h.w.file)
    ensures h.w.file == old(h.w.file) || (h.w.file.Some? && h.w.file.value.pending &&
              h.w.file.value.config == ConfigOf(old(h.w.file)))
    ensures o == Done ==>
              && h.w.file == Some(Saved(ConfigOf(old(h.w.file)), backups, true))
              && (c.dns != [] ==> c.iface in backups) && Right(h.w, backups, original)
              && (old(h.w.file).Some? ==> forall i :: i in old(h.w.file).value.backups ==>
                    i in backups && old(h.w.file).value.backups[i] == backups[i])
  {
    var before := h.w.file;
    backups := if before.Some? then before.value.backups else map[];
    o := Done;
    if c.iface != "" && c.dns != [] && c.iface !in backups {
      var settings;
      o, settings := SnapshotDns(h, c.iface);
      if o != Done {
        return;
      }
      backups := backups[c.iface := settings];
    }
    o := h.Change(WriteState(Some(Saved(ConfigOf(before), backups, true))));
  }

  /** The journal was written, or its writing failed. */
  ghost predicate Journalled(w: World, c: Config, backups: map<string, Dns>, o: Exit, after: World) {
    && (c.dns == [] || c.iface in w.dns || Backed(w, c.iface))
    && backups == Backups(w, c) && Ends(w, WriteState(Journal(w, c)), o, after)
  }

  /** Only our rules and routes are there, the interface has an address that fits and, if it gets DNS
      settings, is available; a configuration that is in force has no routes that cannot be mended. */
  predicate CanApply(w: World, sources: Sources, c: Config) {
    && OursOnly(w) && (c.iface != "" ==> (c.iface, c.gateway) in sources) && Available(w, c)
    && (InPlace(w, c) ==> Mendable(w, c))
  }

  /** The recorded configuration could be put back into force. */
  predicate CanRestore(w: World, sources: Sources) {
    var c := ConfigOf(w.file);
    Available(w, c) && (c.iface != "" ==> (c.iface, c.gateway) in sources)
  }

  /** Settings can be lost by a call exactly if `CanLose` holds before it. Without a fault the call applies the
      configuration exactly if that can be done, and one fault is rolled back. */
  method Apply(h: Host, c: Config, ghost original: map<string, Dns>) returns (r: Outcome)
    requires Inv(h.w, original) && Validated(c)
    modifies h
    ensures Foreign(h.w) == Foreign(old(h.w)) && h.w.dns.Keys == old(h.w.dns.Keys)
    ensures Applies(h.sources, old(h.w), c, r, h.w)
    ensures Inv(h.w, original) || (r in {Incomplete, Died} && CanLose(h.sources, old(h.w), c))
    ensures r == Applied && !(old(h.w.file).None? && c.iface == "") ==> InForce(h, c, original)
    ensures r == Applied && old(h.w.file).None? && c.iface == "" ==> h.w == old(h.w) && AllOriginal(h.w, original)
    ensures h.faults == old(h.faults) && !(old(h.w.file).None? && c.iface == "") ==>
              (r == Applied <==> CanApply(old(h.w), h.sources, c))
    ensures r == Incomplete && !InPlace(old(h.w), c) ==>
              || h.faults >= old(h.faults) + 2
              || !CanApply(old(h.w), h.sources, c) || !CanRestore(old(h.w), h.sources)
    ensures r == Died ==> h.faults > old(h.faults)
    ensures r == Refused ==> h.w == old(h.w).(file := h.w.file) && ConfigOf(h.w.file) == ConfigOf(old(h.w.file))
    ensures r == RolledBack ==> h.w.file == old(h.w.file)
    ensures r == RolledBack && ConfigOf(old(h.w.file)).iface == "" ==>
              NothingInstalled(h.w) && AllOriginal(h.w, original)
    ensures r == RolledBack && ConfigOf(old(h.w.file)).iface != "" ==>
              exists src :: Installed(h.w, ConfigOf(old(h.w.file)), src)
  {
    var before := h.w.file;
    if before.None? && c.iface == "" {
      return Applied;
    }
    var o, rules, routes := Resources(h);
    if o != Done {
      return Ended(o, Refused);
    }
    var src := "";
    if c.iface != "" {
      o, src := SourceAddress(h, c);
      if o != Done {
        return Ended(o, Refused);
      }
    }
    if before.Some? && !before.value.pending && before.value.config == c && c.iface != "" {
      o := RepairInPlace(h, c, src, original);
      return Ended(o, Incomplete);
    }
    r := ReplaceConfig(h, c, src, original);
  }

  /** Reads what a rollback will need, writes the journal and replaces the configuration. */
  method ReplaceConfig(h: Host, c: Config, src: string, ghost original: map<string, Dns>) returns (r: Outcome)
    requires Inv(h.w, original) && Validated(c) && OursOnly(h.w) && !InPlace(h.w, c)
    requires src == Address(SourceOf(h.sources, c)) && (c.iface != "" ==> SourceOf(h.sources, c).Some?)
    modifies h
    ensures Foreign(h.w) == Foreign(old(h.w)) && h.w.dns.Keys == old(h.w.dns.Keys)
    ensures (r in {Refused, Died} && h.w == old(h.w)) ||
              Replaces(h.sources, old(h.w), c, src, SourceOf(h.sources, ConfigOf(old(h.w.file))), r, h.w) ||
              Replaces(h.sources, old(h.w), c, src, None, r, h.w)
    ensures LosesOnlyIf(h.sources, old(h.w), c, r, h.w, original)
    ensures r == Applied ==> InForce(h, c, original)
    ensures r == Refused ==> h.w == old(h.w).(file := h.w.file) && ConfigOf(h.w.file) == ConfigOf(old(h.w.file))
    ensures r == RolledBack ==> h.w.file == old(h.w.file)
    ensures r == RolledBack && ConfigOf(old(h.w.file)).iface == "" ==>
              NothingInstalled(h.w) && AllOriginal(h.w, original)
    ensures r == RolledBack && ConfigOf(old(h.w.file)).iface != "" ==>
              exists s :: Installed(h.w, ConfigOf(old(h.w.file)), s)
    ensures r != Applied ==> h.faults > old(h.faults) || !Available(old(h.w), c)
    ensures r == Incomplete && Available(old(h.w), c) && CanRestore(old(h.w), h.sources) ==>
              h.faults >= old(h.faults) + 2
    ensures r == Died ==> h.faults > old(h.faults)
  {
    var before := h.w.file;
    var o, oldSource := OldSource(h, ConfigOf(before));
    if o == Crashed {
      return Died;
    }
    ghost var was := h.w;
    var backups;
    o, backups := Prepare(h, c, original);
    if o != Done {
      assert h.w == was || Replaces(h.sources, was, c, src, oldSource, Ended(o, Refused), h.w);
      return Ended(o, Refused);
    }
    r := Transact(h, c, src, before, oldSource, backups, original);
    assert Replaces(h.sources, was, c, src, oldSource, r, h.w);
  }

  /** The address of the recorded interface. One that cannot be had does not stop the call. */
  method OldSource(h: Host, oldConfig: Config) returns (o: Exit, source: Option<string>)
    modifies h`faults
    ensures o == Crashed ==> h.faults > old(h.faults)
    ensures source.Some? ==> source == SourceOf(h.sources, oldConfig)
    ensures source.None? && o != Crashed ==>
              oldConfig.iface == "" || h.faults > old(h.faults) || (oldConfig.iface, oldConfig.gateway) !in h.sources
    ensures h.faults >= old(h.faults)
  {
    o, source := Done, None;
    if oldConfig.iface != "" {
      var s;
      o, s := SourceAddress(h, oldConfig);
      source := if o == Done then Some(s) else None;
    }
  }

  /** Settings are lost at most where they can be. */
  ghost predicate LosesOnlyIf(sources: Sources, w: World, c: Config, r: Outcome, after: World,
                              original: map<string, Dns>) {
    Inv(after, original) || (r in {Incomplete, Died} && CanLose(sources, w, c))
  }

  method Transact(h: Host, c: Config, src: string, before: Option<Saved>, oldSource: Option<string>,
                  backups: map<string, Dns>, ghost original: map<string, Dns>)
    returns (r: Outcome)
    requires Inv(h.w, original) && Validated(c) && FileSound(before)
    requires h.w.file == Some(Saved(ConfigOf(before), backups, true)) && Right(h.w, backups, original)
    requires OursOnly(h.w) && (oldSource.Some? ==> oldSource == SourceOf(h.sources, ConfigOf(before)))
    requires c.dns != [] ==> c.iface in backups
    requires before.Some? ==> forall i :: i in before.value.backups ==>
              i in backups && before.value.backups[i] == backups[i]
    modifies h
    ensures Foreign(h.w) == Foreign(old(h.w)) && h.w.dns.Keys == old(h.w.dns.Keys)
    ensures Transacts(h.sources, old(h.w), c, src, before, oldSource, backups, r, h.w)
    ensures LosesOnlyIf(h.sources, old(h.w).(file := before), c, r, h.w, original)
    ensures r != Refused && (r == Applied ==> InForce(h, c, original))
    ensures r == Died ==> h.faults > old(h.faults)
    ensures r != Applied ==> h.faults > old(h.faults) || !Usable(old(h.w), h.sources, c, src)
    ensures r == Incomplete && Usable(old(h.w), h.sources, c, src) && Restorable(old(h.w), before, oldSource) ==>
              h.faults >= old(h.faults) + 2
    ensures r == RolledBack ==> h.w.file == before
    ensures r == RolledBack && ConfigOf(before).iface == "" ==> NothingInstalled(h.w) && AllOriginal(h.w, original)
    ensures r == RolledBack && ConfigOf(before).iface != "" ==>
              oldSource.Some? && Installed(h.w, ConfigOf(before), oldSource.value)
  {
    ghost var journal := h.w;
    var o := Attempt(h, c, src, backups, original);
    if o != Failed {
      return Ended(o, Incomplete);
    }
    r := Undo(h, c, src, before, oldSource, backups, journal, original);
  }

  /** The rollback of an attempt that began in `journal` and failed. */
  method Undo(h: Host, c: Config, src: string, before: Option<Saved>, oldSource: Option<string>,
              backups: map<string, Dns>, ghost journal: World, ghost original: map<string, Dns>)
    returns (r: Outcome)
    requires Inv(h.w, original) && FileSound(before) && OursOnly(h.w) && OursOnly(journal)
    requires journal.file == Some(Saved(ConfigOf(before), backups, true)) && Right(journal, backups, original)
    requires oldSource.Some? ==> oldSource == SourceOf(h.sources, ConfigOf(before))
    requires c.dns != [] ==> c.iface in backups
    requires before.Some? ==> forall i :: i in before.value.backups ==>
              i in backups && before.value.backups[i] == backups[i]
    requires h.w.dns.Keys == journal.dns.Keys && Attempts(h.sources, journal, c, src, backups, Failed, h.w)
    requires h.w.file == journal.file || (c.iface != "" && Written(h.sources, h.w, c, backups, original))
    modifies h
    ensures Foreign(h.w) == Foreign(old(h.w)) && h.w.dns.Keys == old(h.w.dns.Keys)
    ensures Transacts(h.sources, journal, c, src, before, oldSource, backups, r, h.w)
    ensures LosesOnlyIf(h.sources, journal.(file := before), c, r, h.w, original)
    ensures r in {RolledBack, Incomplete, Died} && h.faults >= old(h.faults)
    ensures r == Died ==> h.faults > old(h.faults)
    ensures r == Incomplete ==> h.faults > old(h.faults) || !Restorable(journal, before, oldSource)
    ensures r == RolledBack ==> h.w.file == before
    ensures r == RolledBack && ConfigOf(before).iface == "" ==> NothingInstalled(h.w) && AllOriginal(h.w, original)
    ensures r == RolledBack && ConfigOf(before).iface != "" ==>
              oldSource.Some? && Installed(h.w, ConfigOf(before), oldSource.value)
  {
    ghost var failed := h.w;
    var o := Rollback(h, before, ConfigOf(before), oldSource, backups, original);
    r := AfterRollback(o);
    LostOnlyIf(h.sources, journal, failed, before, c, oldSource, backups, r, h.w, original);
  }

  lemma LostOnlyIf(sources: Sources, journal: World, failed: World, before: Option<Saved>, c: Config,
                   oldSource: Option<string>, backups: map<string, Dns>, r: Outcome, after: World,
                   original: map<string, Dns>)
    requires c.dns != [] ==> c.iface in backups
    requires FileSound(before) && Right(journal, backups, original) && OursOnly(journal) &&
              failed.dns.Keys == journal.dns.Keys
    requires before.Some? ==> forall i :: i in before.value.backups ==>
              i in backups && before.value.backups[i] == backups[i]
    requires oldSource.Some? ==> oldSource == SourceOf(sources, ConfigOf(before))
    requires journal.file == Some(Saved(ConfigOf(before), backups, true))
    requires failed.file == journal.file || (c.iface != "" && Written(sources, failed, c, backups, original))
    requires Inv(after, original) || (r in {Incomplete, Died} && Exposed(failed, ConfigOf(before), oldSource, original))
    ensures LosesOnlyIf(sources, journal.(file := before), c, r, after, original)
  {
    if !Inv(after, original) {
      ExposedCanLose(sources, journal, failed, before, c, oldSource, backups, original);
    }
  }

  /** What the rollback exposes was exposed by the configuration and the record before the call. */
  lemma ExposedCanLose(sources: Sources, journal: World, failed: World, before: Option<Saved>, c: Config,
                       oldSource: Option<string>,
                       backups: map<string, Dns>, original: map<string, Dns>)
    requires c.dns != [] ==> c.iface in backups
    requires FileSound(before) && Right(journal, backups, original) && OursOnly(journal) &&
              failed.dns.Keys == journal.dns.Keys
    requires before.Some? ==> forall i :: i in before.value.backups ==>
              i in backups && before.value.backups[i] == backups[i]
    requires oldSource.Some? ==> oldSource == SourceOf(sources, ConfigOf(before))
    requires journal.file == Some(Saved(ConfigOf(before), backups, true))
    requires failed.file == journal.file || (c.iface != "" && Written(sources, failed, c, backups, original))
    requires Exposed(failed, ConfigOf(before), oldSource, original)
    ensures CanLose(sources, journal.(file := before), c)
  {
    var iface := ConfigOf(before).iface;
    assert iface in before.value.backups && iface in backups;
  }
}
