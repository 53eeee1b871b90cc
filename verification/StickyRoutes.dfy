/** vpn-sticky's reconciler: policy rules and routes are brought in line with the
    configuration by adding first and removing what a state file lists and nobody wants
    any more. */
module StickyRoutes {
  import opened Wrappers
  import M = StickyMarks

  datatype Family = V4 | V6

  /** How `ip` reads a prefix text: several texts may name one network. */
  type Naming = (Family, string) -> nat

  /** Whether `ip rule show` prints a rule in the words the script wants to see. */
  type Printing = M.Rule -> bool

  type Iface = M.Iface

  // ----- the tunnels of a configuration

  /** The init script takes only sections that name their interface; the template falls
      back to the section's id. */
  predicate InitComplete(s: M.Section) {
    s.name.Some? && M.Complete(s)
  }

  function InitCollected(sections: seq<M.Section>): seq<Iface> {
    if sections == [] then []
    else
      var s := sections[|sections| - 1];
      var rest := InitCollected(sections[..|sections| - 1]);
      if InitComplete(s) then rest + [M.Iface(s.name.value, s.mark.value, s.pref.value, s.table.value)] else rest
  }

  method InitCollectIfaces(sections: seq<M.Section>) returns (ifaces: seq<Iface>)
    ensures ifaces == InitCollected(sections)
  {
    ifaces := [];
    for i := 0 to |sections|
      invariant ifaces == InitCollected(sections[..i])
    {
      assert sections[..i + 1][..i] == sections[..i];
      var s := sections[i];
      if s.name.None? || s.name.value == "" || s.mark.None? || s.pref.None? || s.table.None? {
        continue;
      }
      ifaces := ifaces + [M.Iface(s.name.value, s.mark.value, s.pref.value, s.table.value)];
    }
    assert sections[..|sections|] == sections;
  }

  predicate AllNamed(sections: seq<M.Section>) {
    forall s | s in sections && M.Complete(s) :: s.name.Some?
  }

  lemma {:induction false} FewerWithoutNames(sections: seq<M.Section>)
    ensures AllNamed(sections) ==> InitCollected(sections) == M.Collected(sections)
    ensures !AllNamed(sections) ==> |InitCollected(sections)| < |M.Collected(sections)|
  {
    if sections != [] {
      var n := |sections| - 1;
      FewerWithoutNames(sections[..n]);
      assert sections == sections[..n] + [sections[n]];
    }
  }

  /** Script and template see the same tunnels exactly when every section that describes one
      in full names its interface. */
  lemma SameTunnelsIff(sections: seq<M.Section>)
    ensures M.Collected(sections) == InitCollected(sections)
       <==> forall s | s in sections && M.Complete(s) :: s.name.Some?
  {
    FewerWithoutNames(sections);
  }

  datatype Config = Config(enabled: bool, ipv6: bool, mask: M.Mark, prefixes: seq<string>, ifaces: seq<Iface>)

  // ----- kernel objects and state lines

  datatype RuleKey = RuleKey(fam: Family, pref: nat)

  type Rule = M.Rule

  datatype RouteKey = RouteKey(fam: Family, table: nat, net: nat)

  type Rules = map<RuleKey, seq<Rule>>

  type Routes = map<RouteKey, string>

  datatype Object = RuleObject(ruleKey: RuleKey, rule: Rule) | RouteObject(routeKey: RouteKey, dev: string)

  /** A line of the state file. */
  datatype Line = RuleLine(fam: Family, pref: nat) | RouteLine(fam: Family, table: nat, prefix: string)

  function RulesAt(rules: Rules, k: RuleKey): seq<Rule> {
    if k in rules then rules[k] else []
  }

  // ----- what a configuration wants

  /** "default" belongs to both families, a text with a colon to IPv6, any other to IPv4. */
  predicate Belongs(prefix: string, fam: Family) {
    prefix == "default" || (fam.V6? <==> ':' in prefix)
  }

  function Filter(ps: seq<string>, fam: Family): seq<string> {
    if ps == [] then []
    else
      var n := |ps| - 1;
      Filter(ps[..n], fam) + if Belongs(ps[n], fam) then [ps[n]] else []
  }

  function FamilyPrefixes(c: Config, fam: Family): seq<string> {
    if c.prefixes == [] then ["default"] else Filter(c.prefixes, fam)
  }

  function RuleOf(c: Config, f: Iface): Rule {
    M.Rule(f.pref, f.raw, c.mask, f.table)
  }

  function RouteLines(fam: Family, table: nat, ps: seq<string>): seq<Line> {
    if ps == [] then [] else RouteLines(fam, table, ps[..|ps| - 1]) + [RouteLine(fam, table, ps[|ps| - 1])]
  }

  function PutRoutes(t: Routes, canon: Naming, fam: Family, table: nat, ps: seq<string>, dev: string): Routes {
    if ps == [] then t
    else PutRoutes(t, canon, fam, table, ps[..|ps| - 1], dev)[RouteKey(fam, table, canon(fam, ps[|ps| - 1])) := dev]
  }

  /** The routes of one tunnel in one family: none while the tunnel is down. */
  function PrefixesOf(c: Config, fam: Family, up: bool): seq<string> {
    if up then FamilyPrefixes(c, fam) else []
  }

  function FamilyLines(c: Config, f: Iface, fam: Family, up: bool): seq<Line> {
    [RuleLine(fam, f.pref)] + RouteLines(fam, f.table, PrefixesOf(c, fam, up))
  }

  function IfaceLines(c: Config, f: Iface, up: bool): seq<Line> {
    FamilyLines(c, f, V4, up) + if c.ipv6 then FamilyLines(c, f, V6, up) else []
  }

  function IfaceRules(r: Rules, c: Config, f: Iface): Rules {
    var r4 := r[RuleKey(V4, f.pref) := [RuleOf(c, f)]];
    if c.ipv6 then r4[RuleKey(V6, f.pref) := [RuleOf(c, f)]] else r4
  }

  function IfaceRoutes(t: Routes, canon: Naming, c: Config, f: Iface, up: bool): Routes {
    var t4 := PutRoutes(t, canon, V4, f.table, PrefixesOf(c, V4, up), f.name);
    if c.ipv6 then PutRoutes(t4, canon, V6, f.table, PrefixesOf(c, V6, up), f.name) else t4
  }

  function Tunnels(c: Config): seq<Iface> {
    if c.enabled then c.ifaces else []
  }

  /** The first `n` tunnels' state lines, and what applying them makes of rules and routes. */
  function Lines(c: Config, ups: seq<bool>, n: nat): seq<Line>
    requires n <= |Tunnels(c)| <= |ups|
  {
    if n == 0 then [] else Lines(c, ups, n - 1) + IfaceLines(c, Tunnels(c)[n - 1], ups[n - 1])
  }

  function AddRules(r: Rules, c: Config, n: nat): Rules
    requires n <= |Tunnels(c)|
  {
    if n == 0 then r else IfaceRules(AddRules(r, c, n - 1), c, Tunnels(c)[n - 1])
  }

  function AddRoutes(t: Routes, canon: Naming, c: Config, ups: seq<bool>, n: nat): Routes
    requires n <= |Tunnels(c)| <= |ups|
  {
    if n == 0 then t else IfaceRoutes(AddRoutes(t, canon, c, ups, n - 1), canon, c, Tunnels(c)[n - 1], ups[n - 1])
  }

  function WantedRules(c: Config): Rules {
    AddRules(map[], c, |Tunnels(c)|)
  }

  function WantedRoutes(canon: Naming, c: Config, ups: seq<bool>): Routes
    requires |Tunnels(c)| <= |ups|
  {
    AddRoutes(map[], canon, c, ups, |Tunnels(c)|)
  }

  function WantedLines(c: Config, ups: seq<bool>): seq<Line>
    requires |Tunnels(c)| <= |ups|
  {
    Lines(c, ups, |Tunnels(c)|)
  }

  // ----- what a state file owns

  function RuleKeys(lines: seq<Line>): set<RuleKey> {
    set l | l in lines && l.RuleLine? :: RuleKey(l.fam, l.pref)
  }

  function RouteKeys(canon: Naming, lines: seq<Line>): set<RouteKey> {
    set l | l in lines && l.RouteLine? :: RouteKey(l.fam, l.table, canon(l.fam, l.prefix))
  }

  /** Lines of the old file that are not in the new one. */
  function Stale(was: seq<Line>, now: seq<Line>): seq<Line> {
    if was == [] then []
    else
      var n := |was| - 1;
      Stale(was[..n], now) + if was[n] in now then [] else [was[n]]
  }

  lemma {:induction false} StaleIff(was: seq<Line>, now: seq<Line>, l: Line)
    ensures l in Stale(was, now) <==> l in was && l !in now
  {
    if was != [] {
      var n := |was| - 1;
      StaleIff(was[..n], now, l);
      assert was == was[..n] + [was[n]];
    }
  }

  lemma {:induction false} NothingWanted(was: seq<Line>)
    ensures Stale(was, []) == was
  {
    if was != [] {
      NothingWanted(was[..|was| - 1]);
    }
  }

  // ----- the service

  class Service {
    const canon: Naming
    const plain: Printing
    /** The kernel's policy rules by family and preference, and its routes. */
    var rules: Rules
    var routes: Routes
    /** The state file, if there is one, and the lines collected for the next one. */
    var file: Option<seq<Line>>
    var state: seq<Line>
    /** Objects that were missing from the kernel at some moment of a reload. */
    ghost var gone: set<Object>

    ghost predicate Valid()
      reads this
    {
      forall k | k in rules :: rules[k] != []
    }

    // ----- ip

    /** Delete the first rule of a preference, if there is one. */
    method RuleDel(k: RuleKey) returns (ok: bool)
      requires Valid()
      modifies `rules, `gone
      ensures Valid() && ok == (k in old(rules))
      ensures !ok ==> rules == old(rules) && gone == old(gone)
      ensures ok ==> RulesAt(rules, k) == RulesAt(old(rules), k)[1..] && rules - {k} == old(rules) - {k}
      ensures ok ==> gone == old(gone) + {RuleObject(k, old(rules)[k][0])}
    {
      if k !in rules {
        return false;
      }
      gone := gone + {RuleObject(k, rules[k][0])};
      rules := if |rules[k]| == 1 then rules - {k} else rules[k := rules[k][1..]];
      return true;
    }

    method RuleAdd(k: RuleKey, r: Rule)
      requires Valid()
      modifies `rules
      ensures Valid() && rules == old(rules)[k := RulesAt(old(rules), k) + [r]]
    {
      rules := rules[k := RulesAt(rules, k) + [r]];
    }

    method RouteReplace(k: RouteKey, dev: string)
      modifies `routes, `gone
      ensures routes == old(routes)[k := dev] && old(gone) <= gone
      ensures forall o | o in gone && o !in old(gone) :: o.RouteObject? && o.routeKey == k && o.dev != dev
    {
      if k in routes && routes[k] != dev {
        gone := gone + {RouteObject(k, routes[k])};
      }
      routes := routes[k := dev];
    }

    method RouteDel(k: RouteKey)
      modifies `routes, `gone
      ensures routes == old(routes) - {k} && old(gone) <= gone
      ensures forall o | o in gone && o !in old(gone) :: o.RouteObject? && o.routeKey == k
    {
      if k in routes {
        gone := gone + {RouteObject(k, routes[k])};
      }
      routes := routes - {k};
    }

    method RouteFlush(fam: Family, table: nat)
      modifies `routes, `gone
      ensures routes == map k | k in old(routes) && !(k.fam == fam && k.table == table) :: old(routes)[k]
    {
      gone := gone + set k | k in routes && k.fam == fam && k.table == table :: RouteObject(k, routes[k]);
      routes := map k | k in routes && !(k.fam == fam && k.table == table) :: routes[k];
    }

    /** `while ip rule del pref ...; do :; done` */
    method RuleDelAll(k: RuleKey)
      requires Valid()
      modifies `rules, `gone
      ensures Valid() && rules == old(rules) - {k} && old(gone) <= gone
      ensures k in old(rules) ==> RuleObject(k, old(rules)[k][0]) in gone
      ensures forall o | o in gone && o !in old(gone) :: o.RuleObject? && o.ruleKey == k
    {
      var more := true;
      while more
        invariant Valid() && rules - {k} == old(rules) - {k} && old(gone) <= gone
        invariant rules == old(rules) || (k in old(rules) ==> RuleObject(k, old(rules)[k][0]) in gone)
        invariant !more ==> k !in rules
        invariant forall o | o in gone && o !in old(gone) :: o.RuleObject? && o.ruleKey == k
        decreases more, |RulesAt(rules, k)|
      {
        more := RuleDel(k);
      }
      assert rules == rules - {k};
    }

    // ----- bringing rules and routes up to date

    predicate Kept(r: Rules, k: RuleKey, want: Rule) {
      RulesAt(r, k) == [want] && plain(want)
    }

    /** Right, but printed in other words. */
    predicate Ugly(r: Rules, k: RuleKey, want: Rule) {
      RulesAt(r, k) == [want] && !plain(want)
    }

    /** A rule that is already right is left alone exactly when it is printed as wanted. */
    method EnsureRule(k: RuleKey, want: Rule)
      requires Valid()
      modifies `rules, `gone, `state
      ensures Valid() && rules == old(rules)[k := [want]] && state == old(state) + [RuleLine(k.fam, k.pref)]
      ensures forall o | o in gone && o !in old(gone) :: o.RuleObject? && o.ruleKey == k && !Kept(old(rules), k, want)
      ensures old(gone) <= gone
      ensures RulesAt(old(rules), k) == [want]
          ==> (RuleObject(k, want) in gone <==> RuleObject(k, want) in old(gone) || !plain(want))
    {
      state := state + [RuleLine(k.fam, k.pref)];
      if Kept(rules, k, want) {
        assert rules == rules[k := [want]];
        return;
      }
      RuleDelAll(k);
      assert RulesAt(rules, k) + [want] == [want];
      RuleAdd(k, want);
      assert rules == (old(rules) - {k})[k := [want]];
    }

    method ApplyFamily(c: Config, f: Iface, fam: Family, up: bool)
      requires Valid()
      modifies `rules, `routes, `gone, `state
      ensures Valid() && state == old(state) + FamilyLines(c, f, fam, up) && old(gone) <= gone
      ensures rules == old(rules)[RuleKey(fam, f.pref) := [RuleOf(c, f)]]
      ensures routes == PutRoutes(old(routes), canon, fam, f.table, PrefixesOf(c, fam, up), f.name)
      ensures forall o | o in gone && o !in old(gone) ::
                match o
                case RuleObject(k, _) => k == RuleKey(fam, f.pref) && !Kept(old(rules), k, RuleOf(c, f))
                case RouteObject(k, dev) => k.table == f.table && dev != f.name
      ensures Ugly(old(rules), RuleKey(fam, f.pref), RuleOf(c, f))
          ==> RuleObject(RuleKey(fam, f.pref), RuleOf(c, f)) in gone
    {
      EnsureRule(RuleKey(fam, f.pref), RuleOf(c, f));
      if !up {
        return;
      }
      var ps := PrefixList(c, fam);
      ghost var before, touched := state, gone;
      for i := 0 to |ps|
        invariant touched <= gone
        invariant Valid() && rules == old(rules)[RuleKey(fam, f.pref) := [RuleOf(c, f)]]
        invariant state == before + RouteLines(fam, f.table, ps[..i])
        invariant routes == PutRoutes(old(routes), canon, fam, f.table, ps[..i], f.name)
        invariant forall o | o in gone && o !in old(gone) ::
                match o
                case RuleObject(k, _) => k == RuleKey(fam, f.pref) && !Kept(old(rules), k, RuleOf(c, f))
                case RouteObject(k, dev) => k.table == f.table && dev != f.name
      {
        assert ps[..i + 1][..i] == ps[..i];
        state := state + [RouteLine(fam, f.table, ps[i])];
        RouteReplace(RouteKey(fam, f.table, canon(fam, ps[i])), f.name);
      }
      assert ps[..|ps|] == ps;
    }

    method PrefixList(c: Config, fam: Family) returns (ps: seq<string>)
      ensures ps == FamilyPrefixes(c, fam)
    {
      if c.prefixes == [] {
        return ["default"];
      }
      ps := [];
      for i := 0 to |c.prefixes|
        invariant ps == Filter(c.prefixes[..i], fam)
      {
        assert c.prefixes[..i + 1][..i] == c.prefixes[..i];
        if c.prefixes[i] == "default" {
          ps := ps + [c.prefixes[i]];
        } else if ':' in c.prefixes[i] {
          if fam == V6 {
            ps := ps + [c.prefixes[i]];
          }
        } else if fam == V4 {
          ps := ps + [c.prefixes[i]];
        }
      }
      assert c.prefixes[..|c.prefixes|] == c.prefixes;
    }

    method ApplyIface(c: Config, f: Iface, up: bool)
      requires Valid()
      modifies `rules, `routes, `gone, `state
      ensures Valid() && state == old(state) + IfaceLines(c, f, up) && old(gone) <= gone
      ensures rules == IfaceRules(old(rules), c, f)
      ensures routes == IfaceRoutes(old(routes), canon, c, f, up)
      ensures forall o | o in gone && o !in old(gone) ::
                match o
                case RuleObject(k, _) => k.pref == f.pref && !Kept(old(rules), k, RuleOf(c, f))
                case RouteObject(k, dev) => k.table == f.table && dev != f.name
      ensures forall k: RuleKey | k.pref == f.pref && (k.fam.V6? ==> c.ipv6) && Ugly(old(rules), k, RuleOf(c, f)) ::
                RuleObject(k, RuleOf(c, f)) in gone
    {
      ApplyFamily(c, f, V4, up);
      if c.ipv6 {
        ApplyFamily(c, f, V6, up);
      }
      forall k: RuleKey | k.pref == f.pref && (k.fam.V6? ==> c.ipv6) && Ugly(old(rules), k, RuleOf(c, f))
        ensures RuleObject(k, RuleOf(c, f)) in gone
      {
        match k.fam {
          case V4 => assert k == RuleKey(V4, f.pref);
          case V6 => assert k == RuleKey(V6, f.pref);
        }
      }
    }

    method RemoveStateEntry(l: Line)
      requires Valid()
      modifies `rules, `routes, `gone
      ensures Valid() && old(gone) <= gone
      ensures rules == old(rules) - RuleKeys([l]) && routes == old(routes) - RouteKeys(canon, [l])
      ensures forall o | o in gone && o !in old(gone) :: Touches(canon, [l], o)
    {
      OneLine(canon, l);
      match l {
        case RuleLine(fam, pref) => RuleDelAll(RuleKey(fam, pref));
        case RouteLine(fam, table, prefix) => RouteDel(RouteKey(fam, table, canon(fam, prefix)));
      }
    }

    /** Remove what the old lines list and the new ones do not. */
    method RemoveStale(was: seq<Line>, now: seq<Line>)
      requires Valid()
      modifies `rules, `routes, `gone
      ensures Valid() && old(gone) <= gone
      ensures rules == old(rules) - RuleKeys(Stale(was, now))
      ensures routes == old(routes) - RouteKeys(canon, Stale(was, now))
      ensures forall o | o in gone && o !in old(gone) :: Touches(canon, Stale(was, now), o)
    {
      for i := 0 to |was|
        invariant Valid() && old(gone) <= gone
        invariant rules == old(rules) - RuleKeys(Stale(was[..i], now))
        invariant routes == old(routes) - RouteKeys(canon, Stale(was[..i], now))
        invariant forall o | o in gone && o !in old(gone) :: Touches(canon, Stale(was[..i], now), o)
      {
        assert was[..i + 1][..i] == was[..i];
        if was[i] !in now {
          KeysJoin(canon, Stale(was[..i], now), [was[i]]);
          RemoveStateEntry(was[i]);
        }
      }
      assert was[..|was|] == was;
    }

    /** Without a state file: clear what the configured tunnels may have left behind. */
    method FlushLegacy(c: Config)
      requires Valid()
      modifies `rules, `routes, `gone
      ensures Valid()
      ensures rules == UnownedRules(old(rules), c, |c.ifaces|)
      ensures routes == UnownedRoutes(old(routes), c, |c.ifaces|)
    {
      assert UnownedRules(rules, c, 0) == rules && UnownedRoutes(routes, c, 0) == routes;
      for i := 0 to |c.ifaces|
        invariant Valid()
        invariant rules == UnownedRules(old(rules), c, i)
        invariant routes == UnownedRoutes(old(routes), c, i)
      {
        FlushIface(c.ifaces[i]);
        ClearNext(old(rules), old(routes), c, i);
      }
    }

    method FlushIface(f: Iface)
      requires Valid()
      modifies `rules, `routes, `gone
      ensures Valid()
      ensures rules == ClearRules(old(rules), f.pref) && routes == ClearRoutes(old(routes), f.table)
    {
      RuleDelAll(RuleKey(V4, f.pref));
      RouteFlush(V4, f.table);
      RuleDelAll(RuleKey(V6, f.pref));
      RouteFlush(V6, f.table);
      BothFamilies(old(rules), f.pref);
    }

    method ApplyRoutes(c: Config, ups: seq<bool>)
      requires Valid() && |Tunnels(c)| <= |ups|
      modifies this
      ensures Valid() && file == Some(WantedLines(c, ups))
      ensures rules == AddRules(if old(file).Some? then old(rules) else UnownedRules(old(rules), c, |c.ifaces|),
                                c, |Tunnels(c)|) - RuleKeys(StaleLines(old(file), c, ups))
      ensures routes == AddRoutes(if old(file).Some? then old(routes) else UnownedRoutes(old(routes), c, |c.ifaces|),
                                  canon, c, ups, |Tunnels(c)|) - RouteKeys(canon, StaleLines(old(file), c, ups))
      ensures old(file).Some? && DistinctPrefs(c) ==> forall o | o in gone && o !in old(gone) ::
                Touches(canon, StaleLines(old(file), c, ups), o) || Outdated(plain, c, old(rules), |Tunnels(c)|, o)
      ensures old(file).Some? && DistinctPrefs(c) ==>
                forall o | Misprinted(plain, c, old(rules), |Tunnels(c)|, o) :: o in gone
    {
      state := [];
      if file == None {
        FlushLegacy(c);
      }
      AddAll(c, ups);
      var now := state;
      if file.Some? {
        RemoveStale(file.value, now);
      }
      file := Some(now);
    }

    /** Remove everything the state file lists, and the file. */
    method RemoveRoutes()
      requires Valid() && file.Some?
      modifies `rules, `routes, `gone, `file
      ensures Valid() && file == None
      ensures rules == old(rules) - RuleKeys(old(file).value)
      ensures routes == old(routes) - RouteKeys(canon, old(file).value)
    {
      NothingWanted(file.value);
      RemoveStale(file.value, []);
      file := None;
    }

    /** Stop: without a state file, clear what the configuration names, if it loads. */
    method Stop(c: Option<Config>)
      requires Valid()
      modifies `rules, `routes, `gone, `file
      ensures Valid() && file == None
      ensures old(file).Some? ==>
                && rules == old(rules) - RuleKeys(old(file).value)
                && routes == old(routes) - RouteKeys(canon, old(file).value)
      ensures old(file).None? && c.Some? ==>
                && rules == UnownedRules(old(rules), c.value, |c.value.ifaces|)
                && routes == UnownedRoutes(old(routes), c.value, |c.value.ifaces|)
      ensures old(file).None? && c.None? ==> rules == old(rules) && routes == old(routes)
    {
      if file.Some? {
        RemoveRoutes();
      } else if c.Some? {
        FlushLegacy(c.value);
      }
    }

    method AddAll(c: Config, ups: seq<bool>)
      requires Valid() && |Tunnels(c)| <= |ups| && state == []
      modifies `rules, `routes, `gone, `state
      ensures Valid() && state == WantedLines(c, ups)
      ensures rules == AddRules(old(rules), c, |Tunnels(c)|)
      ensures routes == AddRoutes(old(routes), canon, c, ups, |Tunnels(c)|)
      ensures DistinctPrefs(c) ==>
                forall o | o in gone && o !in old(gone) :: Outdated(plain, c, old(rules), |Tunnels(c)|, o)
      ensures DistinctPrefs(c) ==> forall o | Misprinted(plain, c, old(rules), |Tunnels(c)|, o) :: o in gone
    {
      hide IfaceRules;
      hide IfaceRoutes;
      hide IfaceLines;
      if !c.enabled {
        return;
      }
      for i := 0 to |c.ifaces|
        invariant Valid() && state == Lines(c, ups, i)
        invariant rules == AddRules(old(rules), c, i)
        invariant routes == AddRoutes(old(routes), canon, c, ups, i)
        invariant DistinctPrefs(c) ==> forall o | o in gone && o !in old(gone) :: Outdated(plain, c, old(rules), i, o)
        invariant DistinctPrefs(c) ==> forall o | Misprinted(plain, c, old(rules), i, o) :: o in gone
      {
        ghost var before := gone;
        ApplyIface(c, c.ifaces[i], ups[i]);
        if DistinctPrefs(c) {
          forall o | o in gone && o !in before ensures Outdated(plain, c, old(rules), i + 1, o) {
            if o.RuleObject? {
              OtherPrefs(old(rules), c, i, o.ruleKey);
            }
          }
          forall o | Misprinted(plain, c, old(rules), i + 1, o) ensures o in gone {
            if o.ruleKey.pref == c.ifaces[i].pref {
              OtherPrefs(old(rules), c, i, o.ruleKey);
            } else {
              assert Misprinted(plain, c, old(rules), i, o);
            }
          }
        }
      }
    }
  }

  /** An object under a key of one of the lines. */
  predicate Touches(canon: Naming, lines: seq<Line>, o: Object) {
    match o
    case RuleObject(k, _) => k in RuleKeys(lines)
    case RouteObject(k, _) => k in RouteKeys(canon, lines)
  }

  lemma OneLine(canon: Naming, l: Line)
    ensures l.RuleLine? ==> RuleKeys([l]) == {RuleKey(l.fam, l.pref)} && RouteKeys(canon, [l]) == {}
    ensures l.RouteLine? ==> RuleKeys([l]) == {}
    ensures l.RouteLine? ==> RouteKeys(canon, [l]) == {RouteKey(l.fam, l.table, canon(l.fam, l.prefix))}
  {
    assert l in [l];
  }

  lemma KeysJoin(canon: Naming, a: seq<Line>, b: seq<Line>)
    ensures RuleKeys(a + b) == RuleKeys(a) + RuleKeys(b)
    ensures RouteKeys(canon, a + b) == RouteKeys(canon, a) + RouteKeys(canon, b)
  {
  }

  function ClearRules(r: Rules, pref: nat): Rules {
    map k | k in r && k.pref != pref :: r[k]
  }

  function ClearRoutes(t: Routes, table: nat): Routes {
    map k | k in t && k.table != table :: t[k]
  }

  lemma BothFamilies(r: Rules, pref: nat)
    ensures r - {RuleKey(V4, pref)} - {RuleKey(V6, pref)} == ClearRules(r, pref)
  {
    forall k: RuleKey | k.pref == pref ensures k == RuleKey(V4, pref) || k == RuleKey(V6, pref) {
      match k.fam
      case V4 =>
      case V6 =>
    }
  }

  lemma ClearNext(r: Rules, t: Routes, c: Config, n: nat)
    requires n < |c.ifaces|
    ensures ClearRules(UnownedRules(r, c, n), c.ifaces[n].pref) == UnownedRules(r, c, n + 1)
    ensures ClearRoutes(UnownedRoutes(t, c, n), c.ifaces[n].table) == UnownedRoutes(t, c, n + 1)
  {
  }

  /** What is left once the preferences and tables of the first `n` tunnels are cleared. */
  function UnownedRules(r: Rules, c: Config, n: nat): Rules
    requires n <= |c.ifaces|
  {
    map k | k in r && (forall j | 0 <= j < n :: c.ifaces[j].pref != k.pref) :: r[k]
  }

  function UnownedRoutes(t: Routes, c: Config, n: nat): Routes
    requires n <= |c.ifaces|
  {
    map k | k in t && (forall j | 0 <= j < n :: c.ifaces[j].table != k.table) :: t[k]
  }

  function StaleLines(file: Option<seq<Line>>, c: Config, ups: seq<bool>): seq<Line>
    requires |Tunnels(c)| <= |ups|
  {
    if file.Some? then Stale(file.value, WantedLines(c, ups)) else []
  }

  predicate DistinctPrefs(c: Config) {
    forall i, j | 0 <= i < j < |Tunnels(c)| :: Tunnels(c)[i].pref != Tunnels(c)[j].pref
  }

  predicate DistinctTables(c: Config) {
    forall i, j | 0 <= i < j < |Tunnels(c)| :: Tunnels(c)[i].table != Tunnels(c)[j].table
  }

  /** An object that one of the first `n` tunnels wants to be different, or a rule that looks
      so as printed. */
  predicate Outdated(plain: Printing, c: Config, before: Rules, n: nat, o: Object)
    requires n <= |Tunnels(c)|
  {
    match o
    case RuleObject(k, _) =>
      exists j | 0 <= j < n :: k.pref == Tunnels(c)[j].pref
        && !(RulesAt(before, k) == [RuleOf(c, Tunnels(c)[j])] && plain(RuleOf(c, Tunnels(c)[j])))
    case RouteObject(k, dev) =>
      exists j | 0 <= j < n :: k.table == Tunnels(c)[j].table && dev != Tunnels(c)[j].name
  }

  /** The very rule that one of the first `n` tunnels wants, printed in other words. */
  predicate Misprinted(plain: Printing, c: Config, before: Rules, n: nat, o: Object)
    requires n <= |Tunnels(c)|
  {
    && o.RuleObject? && RulesAt(before, o.ruleKey) == [o.rule] && !plain(o.rule) && (o.ruleKey.fam.V6? ==> c.ipv6)
    && exists j | 0 <= j < n :: o.ruleKey.pref == Tunnels(c)[j].pref && o.rule == RuleOf(c, Tunnels(c)[j])
  }

  lemma {:induction false} OtherPrefs(r: Rules, c: Config, n: nat, k: RuleKey)
    requires n <= |Tunnels(c)| && forall j | 0 <= j < n :: Tunnels(c)[j].pref != k.pref
    ensures RulesAt(AddRules(r, c, n), k) == RulesAt(r, k)
  {
    if n > 0 {
      OtherPrefs(r, c, n - 1, k);
      assert Tunnels(c)[n - 1].pref != k.pref;
    }
  }
}
