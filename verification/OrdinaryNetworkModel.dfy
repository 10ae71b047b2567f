/**
 The host as the ordinary-network transaction sees it (script/network/ordinary_network.py): DNS
 settings of the interfaces, policy rules, one routing table and the persisted state, the commands
 that change them, what has to be kept, and the plan that repairs missing resources.
 */
module OrdinaryNetworkModel {
  import opened Wrappers

  const PROTOCOL := 242
  const PRIORITIES := {20000, 20010}

  datatype Dns = Dns(servers: seq<string>, domains: seq<string>, defaultRoute: bool)

  /** `plain` is false for a rule or route with any attribute that this program never sets. */
  datatype Rule = Rule(priority: int, protocol: int, table: string, suppress: Option<int>, plain: bool)
  datatype Entry = Entry(dev: string, src: string, gateway: Option<string>, linkScope: bool, protocol: int, plain: bool)

  const MAIN_RULE := Rule(20000, PROTOCOL, "main", Some(0), true)
  const TABLE_RULE := Rule(20010, PROTOCOL, "18684", None, true)

  /** A validated configuration: no interface means no gateway and no DNS servers. */
  datatype Config = Config(iface: string, gateway: string, dns: seq<string>)

  const SystemNetwork := Config("", "", [])

  predicate Validated(c: Config) {
    c.iface == "" ==> c == SystemNetwork
  }

  datatype Saved = Saved(config: Config, backups: map<string, Dns>, pending: bool)

  /** `dns` has the available interfaces, `routes` is table 18684 by destination, `file` the persisted
      state. */
  datatype World = World(dns: map<string, Dns>, rules: set<Rule>, routes: map<string, Entry>, file: Option<Saved>)

  // ---------- commands ----------

  datatype Command =
    | ReplaceRoute(dst: string, entry: Entry)
    | DeleteRoute(dst: string)
    | AddRule(rule: Rule)
    | DeleteRule(rule: Rule)
    | SetServers(iface: string, servers: seq<string>)
    | SetDomains(iface: string, domains: seq<string>)
    | SetDefaultRoute(iface: string, on: bool)
    | WriteState(state: Option<Saved>)

  predicate Possible(w: World, c: Command) {
    c.SetServers? || c.SetDomains? || c.SetDefaultRoute? ==> c.iface in w.dns
  }

  function Effect(w: World, c: Command): World
    requires Possible(w, c)
  {
    match c
    case ReplaceRoute(dst, entry) => w.(routes := w.routes[dst := entry])
    case DeleteRoute(dst) => w.(routes := w.routes - {dst})
    case AddRule(rule) => w.(rules := w.rules + {rule})
    case DeleteRule(rule) => w.(rules := w.rules - {rule})
    case SetServers(i, servers) => w.(dns := w.dns[i := w.dns[i].(servers := servers)])
    case SetDomains(i, domains) => w.(dns := w.dns[i := w.dns[i].(domains := domains)])
    case SetDefaultRoute(i, on) => w.(dns := w.dns[i := w.dns[i].(defaultRoute := on)])
    case WriteState(state) => w.(file := state)
  }

  function Run(w: World, c: Command): World {
    if Possible(w, c) then Effect(w, c) else w
  }

  // ---------- what is kept ----------

  /** The recorded settings of every available interface are the original ones. */
  ghost predicate Honest(w: World, original: map<string, Dns>) {
    w.file.Some? ==> forall i :: i in w.file.value.backups && i in w.dns ==>
        i in original && w.file.value.backups[i] == original[i]
  }

  ghost predicate Backed(w: World, i: string) {
    w.file.Some? && i in w.file.value.backups
  }

  /** Every available interface has its original settings, or they are on record. */
  ghost predicate Safe(w: World, original: map<string, Dns>) {
    forall i :: i in w.dns && !Backed(w, i) ==> i in original && w.dns[i] == original[i]
  }

  /** The interface whose DNS settings a configuration replaces, if it has DNS servers. */
  function Touched(c: Config): set<string> {
    if c.dns != [] then {c.iface} else {}
  }

  ghost predicate FileSound(file: Option<Saved>) {
    file.Some? ==>
      && Validated(file.value.config)
      && (file.value.config.dns != [] ==> file.value.config.iface in file.value.backups)
      && (!file.value.pending ==> file.value.backups.Keys == Touched(file.value.config))
  }

  ghost predicate Inv(w: World, original: map<string, Dns>) {
    Honest(w, original) && Safe(w, original) && FileSound(w.file)
  }

  /** What belongs to others: rules that are not one of ours, and routes of another protocol. */
  function Foreign(w: World): (set<Rule>, map<string, Entry>) {
    (w.rules - {MAIN_RULE, TABLE_RULE}, map d | d in w.routes && w.routes[d].protocol != PROTOCOL :: w.routes[d])
  }

  predicate OursOnly(w: World) {
    && (forall r :: r in w.rules && r.priority in PRIORITIES ==> r == MAIN_RULE || r == TABLE_RULE)
    && (forall d :: d in w.routes ==> w.routes[d].protocol == PROTOCOL)
  }

  /** Commands that only touch DNS settings of recorded interfaces keep the invariant. */
  predicate Covered(w: World, c: Command) {
    match c
    case SetServers(i, _) => w.file.Some? && i in w.file.value.backups
    case SetDomains(i, _) => w.file.Some? && i in w.file.value.backups
    case SetDefaultRoute(i, _) => w.file.Some? && i in w.file.value.backups
    case WriteState(_) => false
    case _ => true
  }

  predicate OwnCommand(c: Command) {
    match c
    case ReplaceRoute(_, entry) => entry.protocol == PROTOCOL
    case AddRule(rule) => rule == MAIN_RULE || rule == TABLE_RULE
    case DeleteRule(rule) => rule == MAIN_RULE || rule == TABLE_RULE
    case _ => true
  }

  lemma OwnCommandKeepsForeign(w: World, c: Command)
    requires OwnCommand(c) && OursOnly(w)
    ensures OursOnly(Run(w, c)) && Foreign(Run(w, c)) == Foreign(w)
  {
    var after := Run(w, c);
    assert Foreign(w).1 == map[] && Foreign(after).1 == map[];
    assert after.rules - {MAIN_RULE, TABLE_RULE} == w.rules - {MAIN_RULE, TABLE_RULE};
  }

  // ---------- the environment between calls ----------

  /** An interface appears, or is given other settings from outside. */
  function Reconfigured(w: World, i: string, settings: Dns): World {
    w.(dns := w.dns[i := settings])
  }

  /** The invariant survives exactly unless other settings are on record for that interface: then a
      later restore would bring back stale ones. */
  lemma ReconfiguredKeepsInv(w: World, original: map<string, Dns>, i: string, settings: Dns)
    requires Inv(w, original)
    ensures Inv(Reconfigured(w, i, settings), original[i := settings]) <==>
              !(Backed(w, i) && w.file.value.backups[i] != settings)
  {
  }

  // ---------- the desired resources ----------

  function LinkRoute(c: Config, src: string): Entry {
    Entry(c.iface, src, None, true, PROTOCOL, true)
  }

  function DefaultRoute(c: Config, src: string): Entry {
    Entry(c.iface, src, Some(c.gateway), false, PROTOCOL, true)
  }

  function Desired(c: Config, src: string): map<string, Entry> {
    map[c.gateway + "/32" := LinkRoute(c, src), "default" := DefaultRoute(c, src)]
  }

  function OurDns(c: Config): Dns {
    Dns(c.dns, ["~."], true)
  }

  predicate Installed(w: World, c: Config, src: string) {
    && MAIN_RULE in w.rules && TABLE_RULE in w.rules && OursOnly(w)
    && w.routes == Desired(c, src)
    && (c.dns != [] ==> c.iface in w.dns && w.dns[c.iface] == OurDns(c))
  }

  /** A route of ours: over the interface, from the address, without other attributes. */
  predicate OwnRoute(e: Entry, c: Config, src: string) {
    e.dev == c.iface && e.src == src && e.protocol == 242 && e.plain
  }

  /** What is installed, item by item: the two rules and no others with their priorities, a route to the
      gateway on the link, a default route over it, and the DNS settings if the configuration has any. */
  lemma InstalledMeans(w: World, c: Config, src: string)
    ensures Installed(w, c, src) <==>
              && (forall r :: r in w.rules && (r.priority == 20000 || r.priority == 20010) ==>
                    r == Rule(20000, 242, "main", Some(0), true) || r == Rule(20010, 242, "18684", None, true))
              && Rule(20000, 242, "main", Some(0), true) in w.rules && Rule(20010, 242, "18684", None, true) in w.rules
              && w.routes.Keys == {c.gateway + "/32", "default"}
              && OwnRoute(w.routes[c.gateway + "/32"], c, src) && OwnRoute(w.routes["default"], c, src)
              && w.routes[c.gateway + "/32"].gateway == None && w.routes[c.gateway + "/32"].linkScope
              && w.routes["default"].gateway == Some(c.gateway) && !w.routes["default"].linkScope
              && (c.dns != [] ==>
                    && c.iface in w.dns && w.dns[c.iface].servers == c.dns
                    && w.dns[c.iface].domains == ["~."] && w.dns[c.iface].defaultRoute)
  {
    LinkIsNotDefault(c.gateway);
  }

  predicate NothingInstalled(w: World) {
    (forall r :: r in w.rules ==> r.priority !in PRIORITIES) && w.routes == map[]
  }

  // ---------- repair ----------

  function Repair(c: Command, needed: bool): seq<Command> {
    if needed then [c] else []
  }

  /** The routes of the table can be repaired: none is extra or has unexpected attributes. */
  predicate Repairable(w: World, c: Config, src: string) {
    OursOnly(w) && forall d :: d in w.routes ==> d in Desired(c, src) && w.routes[d].plain
  }

  predicate Missing(w: World, dst: string, entry: Entry) {
    !(dst in w.routes && w.routes[dst] == entry)
  }

  function RouteRepairs(w: World, c: Config, src: string): seq<Command> {
    var link := c.gateway + "/32";
    Repair(ReplaceRoute(link, LinkRoute(c, src)), Missing(w, link, LinkRoute(c, src)))
    + Repair(ReplaceRoute("default", DefaultRoute(c, src)), Missing(w, "default", DefaultRoute(c, src)))
  }

  function RuleRepairs(w: World): seq<Command> {
    Repair(AddRule(MAIN_RULE), MAIN_RULE !in w.rules) + Repair(AddRule(TABLE_RULE), TABLE_RULE !in w.rules)
  }

  function DnsRepairs(w: World, c: Config): seq<Command>
    requires c.dns != [] ==> c.iface in w.dns
  {
    if c.dns == [] then []
    else
      Repair(SetServers(c.iface, c.dns), w.dns[c.iface].servers != c.dns)
      + Repair(SetDomains(c.iface, ["~."]), w.dns[c.iface].domains != ["~."])
      + Repair(SetDefaultRoute(c.iface, true), !w.dns[c.iface].defaultRoute)
  }

  function RepairPlan(w: World, c: Config, src: string): seq<Command>
    requires c.dns != [] ==> c.iface in w.dns
  {
    RouteRepairs(w, c, src) + RuleRepairs(w) + DnsRepairs(w, c)
  }

  function RunAll(w: World, cs: seq<Command>): World
    decreases |cs|
  {
    if cs == [] then w else RunAll(Run(w, cs[0]), cs[1..])
  }

  lemma {:induction false} RunAllConcat(w: World, a: seq<Command>, b: seq<Command>)
    ensures RunAll(w, a + b) == RunAll(RunAll(w, a), b)
    decreases |a|
  {
    if a == [] {
      assert a + b == b;
    } else {
      assert (a + b)[1..] == a[1..] + b;
      RunAllConcat(Run(w, a[0]), a[1..], b);
    }
  }

  lemma RunRepair(w: World, c: Command, needed: bool, rest: seq<Command>)
    ensures RunAll(w, Repair(c, needed) + rest) == RunAll(if needed then Run(w, c) else w, rest)
  {
    if needed {
      assert (Repair(c, needed) + rest)[1..] == rest;
    } else {
      assert Repair(c, needed) + rest == rest;
    }
  }

  lemma LinkIsNotDefault(gateway: string)
    ensures gateway + "/32" != "default"
  {
    var link := gateway + "/32";
    assert link[|link| - 1] == '2';
  }

  lemma RunTwo(w: World, a: Command, na: bool, b: Command, nb: bool)
    ensures RunAll(w, Repair(a, na) + Repair(b, nb)) ==
              var one := if na then Run(w, a) else w; if nb then Run(one, b) else one
  {
    RunRepair(w, a, na, Repair(b, nb));
    var one := if na then Run(w, a) else w;
    RunRepair(one, b, nb, []);
    assert Repair(b, nb) + [] == Repair(b, nb);
  }

  lemma RouteRepaired(w: World, dst: string, entry: Entry)
    ensures (if Missing(w, dst, entry) then Run(w, ReplaceRoute(dst, entry)) else w) ==
              w.(routes := w.routes[dst := entry])
  {
  }

  lemma RouteRepairsWork(w: World, c: Config, src: string)
    requires Repairable(w, c, src)
    ensures RunAll(w, RouteRepairs(w, c, src)) == w.(routes := Desired(c, src))
    ensures RouteRepairs(w, c, src) == [] <==> w.routes == Desired(c, src)
  {
    LinkIsNotDefault(c.gateway);
    var link := c.gateway + "/32";
    var one := w.(routes := w.routes[link := LinkRoute(c, src)]);
    RunTwo(w, ReplaceRoute(link, LinkRoute(c, src)), Missing(w, link, LinkRoute(c, src)),
           ReplaceRoute("default", DefaultRoute(c, src)), Missing(w, "default", DefaultRoute(c, src)));
    RouteRepaired(w, link, LinkRoute(c, src));
    RouteRepaired(one, "default", DefaultRoute(c, src));
    assert one.routes["default" := DefaultRoute(c, src)] == Desired(c, src);
  }

  lemma RuleRepairsWork(w: World)
    ensures RunAll(w, RuleRepairs(w)) == w.(rules := w.rules + {MAIN_RULE, TABLE_RULE})
    ensures RuleRepairs(w) == [] <==> MAIN_RULE in w.rules && TABLE_RULE in w.rules
  {
    RunTwo(w, AddRule(MAIN_RULE), MAIN_RULE !in w.rules, AddRule(TABLE_RULE), TABLE_RULE !in w.rules);
  }

  /** What one DNS repair leaves: the setting it was to have. */
  lemma ServersRepaired(w: World, i: string, servers: seq<string>)
    requires i in w.dns
    ensures (if w.dns[i].servers != servers then Run(w, SetServers(i, servers)) else w) ==
              w.(dns := w.dns[i := w.dns[i].(servers := servers)])
  {
  }

  lemma DomainsRepaired(w: World, i: string, domains: seq<string>)
    requires i in w.dns
    ensures (if w.dns[i].domains != domains then Run(w, SetDomains(i, domains)) else w) ==
              w.(dns := w.dns[i := w.dns[i].(domains := domains)])
  {
  }

  lemma DefaultRepaired(w: World, i: string)
    requires i in w.dns
    ensures (if !w.dns[i].defaultRoute then Run(w, SetDefaultRoute(i, true)) else w) ==
              w.(dns := w.dns[i := w.dns[i].(defaultRoute := true)])
  {
  }

  lemma DnsRepairsWork(w: World, c: Config)
    requires c.dns != [] && c.iface in w.dns
    ensures RunAll(w, DnsRepairs(w, c)) == w.(dns := w.dns[c.iface := OurDns(c)])
  {
    var i := c.iface;
    var d := w.dns[i];
    var first := Repair(SetServers(i, c.dns), d.servers != c.dns) + Repair(SetDomains(i, ["~."]), d.domains != ["~."]);
    var last := Repair(SetDefaultRoute(i, true), !d.defaultRoute);
    var one := w.(dns := w.dns[i := d.(servers := c.dns)]);
    var two := w.(dns := w.dns[i := d.(servers := c.dns, domains := ["~."])]);
    ServersRepaired(w, i, c.dns);
    DomainsRepaired(one, i, ["~."]);
    assert two == one.(dns := one.dns[i := one.dns[i].(domains := ["~."])]);
    RunTwo(w, SetServers(i, c.dns), d.servers != c.dns, SetDomains(i, ["~."]), d.domains != ["~."]);
    RunAllConcat(w, first, last);
    DefaultRepaired(two, i);
    RunRepair(two, SetDefaultRoute(i, true), !d.defaultRoute, []);
    assert last + [] == last;
  }

  lemma DnsRepairsEmpty(w: World, c: Config)
    requires c.dns != [] && c.iface in w.dns
    ensures DnsRepairs(w, c) == [] <==> w.dns[c.iface] == OurDns(c)
  {
  }

  function Repaired(w: World, c: Config, src: string): World {
    World(if c.dns == [] then w.dns else w.dns[c.iface := OurDns(c)], w.rules + {MAIN_RULE, TABLE_RULE},
          Desired(c, src), w.file)
  }

  lemma RunRepairPlan(w: World, c: Config, src: string)
    requires Repairable(w, c, src) && (c.dns != [] ==> c.iface in w.dns)
    ensures RunAll(w, RepairPlan(w, c, src)) == Repaired(w, c, src)
  {
    RunAllConcat(w, RouteRepairs(w, c, src) + RuleRepairs(w), DnsRepairs(w, c));
    RunAllConcat(w, RouteRepairs(w, c, src), RuleRepairs(w));
    RouteRepairsWork(w, c, src);
    var one := w.(routes := Desired(c, src));
    RuleRepairsWork(one);
    assert RuleRepairs(one) == RuleRepairs(w);
    var two := one.(rules := w.rules + {MAIN_RULE, TABLE_RULE});
    assert DnsRepairs(two, c) == DnsRepairs(w, c);
    if c.dns != [] {
      DnsRepairsWork(two, c);
    }
  }

  /** The plan is empty exactly when everything is installed, and carrying it out installs
      everything. */
  lemma RepairConverges(w: World, c: Config, src: string)
    requires Repairable(w, c, src) && (c.dns != [] ==> c.iface in w.dns)
    ensures RepairPlan(w, c, src) == [] <==> Installed(w, c, src)
    ensures Installed(RunAll(w, RepairPlan(w, c, src)), c, src)
  {
    RunRepairPlan(w, c, src);
    RouteRepairsWork(w, c, src);
    RuleRepairsWork(w);
    if c.dns != [] {
      DnsRepairsEmpty(w, c);
    }
  }

  // ---------- how things end ----------

  /** How a command or a part of the transaction ends. A failure is an exception; after a crash
      nothing more runs. */
  datatype Exit = Done | Failed | Crashed

  /** How `Apply` ends: with the configuration in force, before anything but the journal was written,
      with the previous configuration back in force, with the journal left for the next call, or
      in the middle of anything. */
  datatype Outcome = Applied | Refused | RolledBack | Incomplete | Died

  function Ended(o: Exit, failed: Outcome): Outcome {
    match o
    case Done => Applied
    case Failed => failed
    case Crashed => Died
  }

  // ---------- what is recorded ----------

  function ConfigOf(file: Option<Saved>): Config {
    if file.Some? then file.value.config else SystemNetwork
  }

  function Retained(c: Config, backups: map<string, Dns>): map<string, Dns>
    requires c.dns != [] ==> c.iface in backups
  {
    if c.dns != [] then map[c.iface := backups[c.iface]] else map[]
  }

  /** What a successful application records; nothing for the system network. */
  function Committed(c: Config, backups: map<string, Dns>): Option<Saved>
    requires c.dns != [] ==> c.iface in backups
  {
    if c.iface != "" then Some(Saved(c, Retained(c, backups), false)) else None
  }
}
