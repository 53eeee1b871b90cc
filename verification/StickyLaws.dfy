/** What vpn-sticky's reconciler guarantees over reloads: wanted objects are there, stale
    ones are gone, foreign ones are left alone, and nothing wanted throughout is missing
    at any moment. */
module StickyLaws {
  import opened Wrappers
  import opened StickyRoutes

  // ----- adding is a union

  lemma {:induction false} AddRulesOver(r: Rules, c: Config, n: nat)
    requires n <= |Tunnels(c)|
    ensures AddRules(r, c, n) == r + AddRules(map[], c, n)
  {
    if n > 0 {
      AddRulesOver(r, c, n - 1);
    }
  }

  lemma {:induction false} PutRoutesOver(t: Routes, u: Routes, canon: Naming, fam: Family, table: nat,
                                         ps: seq<string>, dev: string)
    ensures PutRoutes(t + u, canon, fam, table, ps, dev) == t + PutRoutes(u, canon, fam, table, ps, dev)
  {
    if ps == [] {
    } else {
      var n := |ps| - 1;
      PutRoutesOver(t, u, canon, fam, table, ps[..n], dev);
      var k := RouteKey(fam, table, canon(fam, ps[n]));
      var v := PutRoutes(u, canon, fam, table, ps[..n], dev);
      hide PutRoutes;
      assert (t + v)[k := dev] == t + v[k := dev];
    }
  }

  lemma {:induction false} AddRoutesOver(t: Routes, canon: Naming, c: Config, ups: seq<bool>, n: nat)
    requires n <= |Tunnels(c)| <= |ups|
    ensures AddRoutes(t, canon, c, ups, n) == t + AddRoutes(map[], canon, c, ups, n)
  {
    if n > 0 {
      AddRoutesOver(t, canon, c, ups, n - 1);
      var u := AddRoutes(map[], canon, c, ups, n - 1);
      var f, up := Tunnels(c)[n - 1], ups[n - 1];
      PutRoutesOver(t, u, canon, V4, f.table, PrefixesOf(c, V4, up), f.name);
      var u4 := PutRoutes(u, canon, V4, f.table, PrefixesOf(c, V4, up), f.name);
      PutRoutesOver(t, u4, canon, V6, f.table, PrefixesOf(c, V6, up), f.name);
    }
  }

  // ----- the state file lists exactly the wanted objects

  lemma {:induction false} RouteLineKeys(canon: Naming, fam: Family, table: nat, ps: seq<string>)
    ensures RuleKeys(RouteLines(fam, table, ps)) == {}
    ensures forall t: Routes, dev: string ::
              PutRoutes(t, canon, fam, table, ps, dev).Keys == t.Keys + RouteKeys(canon, RouteLines(fam, table, ps))
  {
    if ps != [] {
      var n := |ps| - 1;
      RouteLineKeys(canon, fam, table, ps[..n]);
      var l := RouteLine(fam, table, ps[n]);
      KeysJoin(canon, RouteLines(fam, table, ps[..n]), [l]);
      OneLine(canon, l);
    }
  }

  lemma FamilyLineKeys(canon: Naming, c: Config, f: Iface, fam: Family, up: bool, t: Routes)
    ensures RuleKeys(FamilyLines(c, f, fam, up)) == {RuleKey(fam, f.pref)}
    ensures PutRoutes(t, canon, fam, f.table, PrefixesOf(c, fam, up), f.name).Keys
         == t.Keys + RouteKeys(canon, FamilyLines(c, f, fam, up))
  {
    hide RuleKeys;
    hide RouteKeys;
    hide PutRoutes;
    var ps := PrefixesOf(c, fam, up);
    KeysJoin(canon, [RuleLine(fam, f.pref)], RouteLines(fam, f.table, ps));
    OneLine(canon, RuleLine(fam, f.pref));
    RouteLineKeys(canon, fam, f.table, ps);
  }

  lemma IfaceLineKeys(canon: Naming, c: Config, f: Iface, up: bool, r: Rules, t: Routes)
    ensures IfaceRules(r, c, f).Keys == r.Keys + RuleKeys(IfaceLines(c, f, up))
    ensures IfaceRoutes(t, canon, c, f, up).Keys == t.Keys + RouteKeys(canon, IfaceLines(c, f, up))
  {
    hide RuleKeys;
    hide RouteKeys;
    hide PutRoutes;
    hide FamilyLines;
    hide PrefixesOf;
    FamilyLineKeys(canon, c, f, V4, up, t);
    var t4 := PutRoutes(t, canon, V4, f.table, PrefixesOf(c, V4, up), f.name);
    FamilyLineKeys(canon, c, f, V6, up, t4);
    KeysJoin(canon, FamilyLines(c, f, V4, up), FamilyLines(c, f, V6, up));
    assert FamilyLines(c, f, V4, up) + [] == FamilyLines(c, f, V4, up);
  }

  lemma {:induction false} LineKeys(canon: Naming, c: Config, ups: seq<bool>, n: nat)
    requires n <= |Tunnels(c)| <= |ups|
    ensures RuleKeys(Lines(c, ups, n)) == AddRules(map[], c, n).Keys
    ensures RouteKeys(canon, Lines(c, ups, n)) == AddRoutes(map[], canon, c, ups, n).Keys
  {
    if n > 0 {
      LineKeys(canon, c, ups, n - 1);
      var f, up := Tunnels(c)[n - 1], ups[n - 1];
      hide RuleKeys;
      hide RouteKeys;
      hide IfaceRules;
      hide IfaceRoutes;
      hide IfaceLines;
      IfaceLineKeys(canon, c, f, up, AddRules(map[], c, n - 1), AddRoutes(map[], canon, c, ups, n - 1));
      KeysJoin(canon, Lines(c, ups, n - 1), IfaceLines(c, f, up));
    }
  }

  // ----- one reload

  /** A removed line and a kept line name the same route in different words. */
  ghost predicate Aliased(canon: Naming, was: seq<Line>, now: seq<Line>) {
    exists l, m | l in was && l !in now && m in now && l.RouteLine? && m.RouteLine? ::
      l.fam == m.fam && l.table == m.table && canon(l.fam, l.prefix) == canon(m.fam, m.prefix)
  }

  lemma StaleRouteKeys(canon: Naming, was: seq<Line>, now: seq<Line>)
    ensures RouteKeys(canon, Stale(was, now)) !! RouteKeys(canon, now) <==> !Aliased(canon, was, now)
    ensures RuleKeys(Stale(was, now)) !! RuleKeys(now)
    ensures RouteKeys(canon, Stale(was, now)) <= RouteKeys(canon, was)
    ensures RuleKeys(Stale(was, now)) <= RuleKeys(was)
  {
    forall l: Line ensures l in Stale(was, now) <==> l in was && l !in now {
      StaleIff(was, now, l);
    }
    if Aliased(canon, was, now) {
      var l, m :| l in was && l !in now && m in now && l.RouteLine? && m.RouteLine?
                  && l.fam == m.fam && l.table == m.table && canon(l.fam, l.prefix) == canon(m.fam, m.prefix);
      assert RouteKey(l.fam, l.table, canon(l.fam, l.prefix)) in RouteKeys(canon, Stale(was, now));
      assert RouteKey(m.fam, m.table, canon(m.fam, m.prefix)) in RouteKeys(canon, now);
    }
  }

  /** Rules and routes as a reload leaves them. */
  function RulesAfter(r: Rules, was: seq<Line>, c: Config, ups: seq<bool>): Rules
    requires |Tunnels(c)| <= |ups|
  {
    AddRules(r, c, |Tunnels(c)|) - RuleKeys(Stale(was, WantedLines(c, ups)))
  }

  function RoutesAfter(t: Routes, canon: Naming, was: seq<Line>, c: Config, ups: seq<bool>): Routes
    requires |Tunnels(c)| <= |ups|
  {
    AddRoutes(t, canon, c, ups, |Tunnels(c)|) - RouteKeys(canon, Stale(was, WantedLines(c, ups)))
  }

  /** Every wanted rule is there after a reload.  So is every wanted route exactly when no
      stale line is another name of a wanted one. */
  lemma WantedPresentIff(canon: Naming, r: Rules, t: Routes, was: seq<Line>, c: Config, ups: seq<bool>)
    requires |Tunnels(c)| <= |ups|
    ensures forall k | k in WantedRules(c) ::
              k in RulesAfter(r, was, c, ups) && RulesAfter(r, was, c, ups)[k] == WantedRules(c)[k]
    ensures (forall k | k in WantedRoutes(canon, c, ups) ::
               && k in RoutesAfter(t, canon, was, c, ups)
               && RoutesAfter(t, canon, was, c, ups)[k] == WantedRoutes(canon, c, ups)[k])
       <==> !Aliased(canon, was, WantedLines(c, ups))
  {
    hide RuleKeys;
    hide RouteKeys;
    hide Aliased;
    hide AddRules;
    hide AddRoutes;
    hide Lines;
    var n, now := |Tunnels(c)|, WantedLines(c, ups);
    AddRulesOver(r, c, n);
    AddRoutesOver(t, canon, c, ups, n);
    LineKeys(canon, c, ups, n);
    StaleRouteKeys(canon, was, now);
    if Aliased(canon, was, now) {
      var k :| k in RouteKeys(canon, Stale(was, now)) && k in RouteKeys(canon, now);
      assert k in WantedRoutes(canon, c, ups) && k !in RoutesAfter(t, canon, was, c, ups);
    }
  }

  /** Changing "default" into its numeric form removes the route that was just replaced. */
  lemma RewordedRouteIsLost(canon: Naming, t: Routes)
    requires canon(V4, "default") == canon(V4, "0.0.0.0/0")
    ensures var f := M.Iface("wg0", 1, 100, 100);
            var was := [RuleLine(V4, 100), RouteLine(V4, 100, "default")];
            var c := Config(true, false, 7, ["0.0.0.0/0"], [f]);
            var k := RouteKey(V4, 100, canon(V4, "0.0.0.0/0"));
            && was == WantedLines(Config(true, false, 7, [], [f]), [true])
            && k in WantedRoutes(canon, c, [true]) && k !in RoutesAfter(t, canon, was, c, [true])
  {
    var f := M.Iface("wg0", 1, 100, 100);
    var c0, c := Config(true, false, 7, [], [f]), Config(true, false, 7, ["0.0.0.0/0"], [f]);
    var was := [RuleLine(V4, 100), RouteLine(V4, 100, "default")];
    OneTunnel(canon, c0, f, ["default"]);
    assert Filter(["0.0.0.0/0"], V4) == ["0.0.0.0/0"];
    OneTunnel(canon, c, f, ["0.0.0.0/0"]);
    var l := RouteLine(V4, 100, "default");
    StaleIff(was, WantedLines(c, [true]), l);
    assert RouteKey(V4, 100, canon(V4, "default")) in RouteKeys(canon, Stale(was, WantedLines(c, [true])));
  }

  lemma OneTunnel(canon: Naming, c: Config, f: Iface, ps: seq<string>)
    requires c.enabled && !c.ipv6 && c.ifaces == [f] && |ps| == 1 && FamilyPrefixes(c, V4) == ps
    ensures WantedLines(c, [true]) == [RuleLine(V4, f.pref), RouteLine(V4, f.table, ps[0])]
    ensures RouteKey(V4, f.table, canon(V4, ps[0])) in WantedRoutes(canon, c, [true])
  {
    assert ps[..0] == [];
    assert RouteLines(V4, f.table, ps) == [RouteLine(V4, f.table, ps[0])];
    assert IfaceLines(c, f, true) == [RuleLine(V4, f.pref), RouteLine(V4, f.table, ps[0])];
    assert Lines(c, [true], 1) == Lines(c, [true], 0) + IfaceLines(c, f, true);
  }

  // ----- every tunnel is served

  lemma {:induction false} RuleServed(c: Config, n: nat, i: nat)
    requires i < n <= |Tunnels(c)|
    requires forall j | i < j < n :: Tunnels(c)[j].pref == Tunnels(c)[i].pref ==>
               RuleOf(c, Tunnels(c)[j]) == RuleOf(c, Tunnels(c)[i])
    ensures var r, f := AddRules(map[], c, n), Tunnels(c)[i];
            && RulesAt(r, RuleKey(V4, f.pref)) == [RuleOf(c, f)]
            && (c.ipv6 ==> RulesAt(r, RuleKey(V6, f.pref)) == [RuleOf(c, f)])
  {
    if i < n - 1 {
      RuleServed(c, n - 1, i);
    }
  }

  predicate Served(c: Config, i: nat)
    requires i < |Tunnels(c)|
  {
    RulesAt(WantedRules(c), RuleKey(V4, Tunnels(c)[i].pref)) == [RuleOf(c, Tunnels(c)[i])]
  }

  /** Every tunnel has its policy rule exactly when tunnels that share a preference want
      the very same rule. */
  lemma AllServedIff(c: Config)
    ensures (forall i | 0 <= i < |Tunnels(c)| :: Served(c, i))
       <==> forall i, j | 0 <= i < j < |Tunnels(c)| && Tunnels(c)[i].pref == Tunnels(c)[j].pref ::
              RuleOf(c, Tunnels(c)[i]) == RuleOf(c, Tunnels(c)[j])
  {
    hide AddRules;
    if forall i, j | 0 <= i < j < |Tunnels(c)| && Tunnels(c)[i].pref == Tunnels(c)[j].pref ::
         RuleOf(c, Tunnels(c)[i]) == RuleOf(c, Tunnels(c)[j])
    {
      forall i | 0 <= i < |Tunnels(c)| ensures Served(c, i) {
        RuleServed(c, |Tunnels(c)|, i);
      }
    }
    if forall i | 0 <= i < |Tunnels(c)| :: Served(c, i) {
      forall i, j | 0 <= i < j < |Tunnels(c)| && Tunnels(c)[i].pref == Tunnels(c)[j].pref
        ensures RuleOf(c, Tunnels(c)[i]) == RuleOf(c, Tunnels(c)[j])
      {
        assert Served(c, i) && Served(c, j);
      }
    }
  }

  /** If every section that describes a tunnel names its interface, the rules installed are
      exactly the ones the marks were reasoned about: one of each tunnel at its preference,
      in each family in use. */
  lemma InstalledRules(c: Config, m: M.Config, sections: seq<M.Section>, k: RuleKey)
    requires SameSections(c, m, sections) && DistinctPrefs(c)
    requires forall s | s in sections && M.Complete(s) :: s.name.Some?
    ensures k in WantedRules(c) <==>
            (k.fam.V6? ==> c.ipv6) && exists i | 0 <= i < |m.ifaces| :: m.ifaces[i].pref == k.pref
    ensures forall i | 0 <= i < |m.ifaces| && m.ifaces[i].pref == k.pref && k in WantedRules(c) ::
              WantedRules(c)[k] == [M.Owned(m)[i]]
  {
    hide AddRules;
    SameTunnelsIff(sections);
    var n := |Tunnels(c)|;
    if k in WantedRules(c) {
      WantedFamily(c, n, k);
      WantedRuleKeys(c, n, k);
    }
    forall i | 0 <= i < n && Tunnels(c)[i].pref == k.pref
      ensures (k.fam.V6? ==> c.ipv6) ==> k in WantedRules(c) && WantedRules(c)[k] == [M.Owned(m)[i]]
    {
      RuleServed(c, n, i);
      match k.fam {
        case V4 =>
        case V6 =>
      }
    }
  }

  /** The service is enabled, and script and template have read the same sections. */
  ghost predicate SameSections(c: Config, m: M.Config, sections: seq<M.Section>) {
    c.enabled && c.ifaces == InitCollected(sections) && m.ifaces == M.Collected(sections) && m.mask == c.mask
  }

  /** Every tunnel the marks are set for has its policy rule. */
  ghost predicate AllInstalled(c: Config, m: M.Config) {
    forall i | 0 <= i < |m.ifaces| :: RulesAt(WantedRules(c), RuleKey(V4, m.ifaces[i].pref)) == [M.Owned(m)[i]]
  }

  function Prefs(ifaces: seq<Iface>): set<nat> {
    set i | 0 <= i < |ifaces| :: ifaces[i].pref
  }

  lemma {:induction false} PrefsCount(ifaces: seq<Iface>)
    ensures |Prefs(ifaces)| <= |ifaces|
    ensures (forall i, j | 0 <= i < j < |ifaces| :: ifaces[i].pref != ifaces[j].pref) ==>
              |Prefs(ifaces)| == |ifaces|
  {
    if ifaces != [] {
      var n := |ifaces| - 1;
      PrefsCount(ifaces[..n]);
      assert ifaces == ifaces[..n] + [ifaces[n]];
      assert Prefs(ifaces) == Prefs(ifaces[..n]) + {ifaces[n].pref};
    }
  }

  /** With preferences of their own, all tunnels that replies are marked for have a policy
      rule if and only if every section that describes one names its interface. */
  lemma AllInstalledIff(c: Config, m: M.Config, sections: seq<M.Section>)
    requires SameSections(c, m, sections)
    requires forall i, j | 0 <= i < j < |m.ifaces| :: m.ifaces[i].pref != m.ifaces[j].pref
    ensures AllInstalled(c, m) <==> forall s | s in sections && M.Complete(s) :: s.name.Some?
  {
    hide AddRules;
    hide InitCollected;
    hide M.Collected;
    SameTunnelsIff(sections);
    FewerWithoutNames(sections);
    if m.ifaces == c.ifaces {
      forall i | 0 <= i < |m.ifaces| ensures RulesAt(WantedRules(c), RuleKey(V4, m.ifaces[i].pref)) == [M.Owned(m)[i]] {
        InstalledRules(c, m, sections, RuleKey(V4, m.ifaces[i].pref));
        assert m.ifaces[i].pref == RuleKey(V4, m.ifaces[i].pref).pref;
      }
    } else if AllInstalled(c, m) {
      forall p | p in Prefs(m.ifaces) ensures p in Prefs(c.ifaces) {
        var i :| 0 <= i < |m.ifaces| && m.ifaces[i].pref == p;
        assert RulesAt(WantedRules(c), RuleKey(V4, p)) == [M.Owned(m)[i]];
        WantedRuleKeys(c, |Tunnels(c)|, RuleKey(V4, p));
      }
      FewerElements(Prefs(m.ifaces), Prefs(c.ifaces));
      PrefsCount(m.ifaces);
      PrefsCount(c.ifaces);
      assert false;
    }
  }

  /** A section without a name: replies get the tunnel's mark, and no rule looks at it. */
  lemma UnnamedTunnelIsUnserved(c: Config, m: M.Config, packet: M.Mark)
    requires SameSections(c, m, [M.Section("wg0", None, Some(0x10000000), Some(100), Some(100))])
    requires m.mask == 0x70000000
    ensures var marked := M.PacketAfter(m, 0x10000000, M.ReplyOut(packet));
            && M.Sticky(marked, m.mask) == 0x10000000
            && M.Lookup(M.Owned(m), marked) == Some(M.Owned(m)[0]) && WantedRules(c) == map[]
  {
    var section := M.Section("wg0", None, Some(0x10000000), Some(100), Some(100));
    assert [section][..0] == [];
    assert m.ifaces == [M.Iface("wg0", 0x10000000, 100, 100)] && c.ifaces == [];
    OnlyTunnel(m, packet);
  }

  lemma OnlyTunnel(m: M.Config, packet: M.Mark)
    requires m.ifaces == [M.Iface("wg0", 0x10000000, 100, 100)] && m.mask == 0x70000000
    ensures var marked := M.PacketAfter(m, 0x10000000, M.ReplyOut(packet));
            M.Sticky(marked, m.mask) == 0x10000000 && M.Lookup(M.Owned(m), marked) == Some(M.Owned(m)[0])
  {
    assert M.DistinctMarks(m);
    M.ReplyUsesTunnel(m, 0x10000000, 0, M.ReplyOut(packet), []);
  }

  lemma {:induction false} PutRoutesHas(t: Routes, canon: Naming, fam: Family, table: nat,
                                        ps: seq<string>, dev: string, p: string)
    requires p in ps
    ensures var k := RouteKey(fam, table, canon(fam, p)); var u := PutRoutes(t, canon, fam, table, ps, dev);
            k in u && u[k] == dev
  {
    var n := |ps| - 1;
    if p != ps[n] {
      assert ps == ps[..n] + [ps[n]];
      PutRoutesHas(t, canon, fam, table, ps[..n], dev, p);
    }
  }

  lemma {:induction false} PutRoutesElsewhere(t: Routes, canon: Naming, fam: Family, table: nat,
                                              ps: seq<string>, dev: string, k: RouteKey)
    requires k.fam != fam || k.table != table
    ensures var u := PutRoutes(t, canon, fam, table, ps, dev); (k in u <==> k in t) && (k in u ==> u[k] == t[k])
  {
    if ps != [] {
      PutRoutesElsewhere(t, canon, fam, table, ps[..|ps| - 1], dev, k);
    }
  }

  predicate Has(t: Routes, k: RouteKey, dev: string) {
    k in t && t[k] == dev
  }

  lemma IfaceRoutesHas(t: Routes, canon: Naming, c: Config, f: Iface, fam: Family, p: string)
    requires fam.V6? ==> c.ipv6
    requires p in FamilyPrefixes(c, fam)
    ensures Has(IfaceRoutes(t, canon, c, f, true), RouteKey(fam, f.table, canon(fam, p)), f.name)
  {
    hide PutRoutes;
    hide FamilyPrefixes;
    var t4 := PutRoutes(t, canon, V4, f.table, FamilyPrefixes(c, V4), f.name);
    if fam.V4? {
      PutRoutesHas(t, canon, V4, f.table, FamilyPrefixes(c, V4), f.name, p);
      PutRoutesElsewhere(t4, canon, V6, f.table, FamilyPrefixes(c, V6), f.name, RouteKey(fam, f.table, canon(fam, p)));
    } else {
      PutRoutesHas(t4, canon, V6, f.table, FamilyPrefixes(c, V6), f.name, p);
    }
  }

  lemma IfaceRoutesElsewhere(t: Routes, canon: Naming, c: Config, f: Iface, up: bool, k: RouteKey, dev: string)
    requires k.table != f.table && Has(t, k, dev)
    ensures Has(IfaceRoutes(t, canon, c, f, up), k, dev)
  {
    PutRoutesElsewhere(t, canon, V4, f.table, PrefixesOf(c, V4, up), f.name, k);
    var t4 := PutRoutes(t, canon, V4, f.table, PrefixesOf(c, V4, up), f.name);
    PutRoutesElsewhere(t4, canon, V6, f.table, PrefixesOf(c, V6, up), f.name, k);
  }

  /** The prefixes a family gets: the default route without any configured, else "default" and
      those written in the family's way, IPv6 with a colon. */
  predicate Chosen(c: Config, fam: Family, p: string) {
    if c.prefixes == [] then p == "default"
    else p in c.prefixes && (p == "default" || (fam.V6? <==> ':' in p))
  }

  lemma {:induction false} FilterIs(ps: seq<string>, fam: Family, p: string)
    ensures p in Filter(ps, fam) <==> p in ps && (p == "default" || (fam.V6? <==> ':' in p))
  {
    if ps != [] {
      var n := |ps| - 1;
      FilterIs(ps[..n], fam, p);
      assert ps == ps[..n] + [ps[n]];
    }
  }

  lemma ChosenIff(c: Config, fam: Family, p: string)
    ensures p in FamilyPrefixes(c, fam) <==> Chosen(c, fam, p)
  {
    FilterIs(c.prefixes, fam, p);
  }

  /** With a table of its own, every tunnel that is up has all its routes through it: the
      default route of each family in use when no prefixes are configured, else "default"
      and every prefix of the family. */
  lemma RoutesServed(canon: Naming, c: Config, ups: seq<bool>, i: nat, fam: Family, p: string)
    requires DistinctTables(c) && i < |Tunnels(c)| <= |ups| && ups[i] && (fam.V6? ==> c.ipv6)
    requires if c.prefixes == [] then p == "default"
             else p in c.prefixes && (p == "default" || (fam.V6? <==> ':' in p))
    ensures var t, k := WantedRoutes(canon, c, ups), RouteKey(fam, Tunnels(c)[i].table, canon(fam, p));
            k in t && t[k] == Tunnels(c)[i].name
  {
    ChosenIff(c, fam, p);
    RoutesServedBy(canon, c, ups, |Tunnels(c)|, i, fam, p);
  }

  lemma {:induction false} RoutesServedBy(canon: Naming, c: Config, ups: seq<bool>, n: nat, i: nat,
                                          fam: Family, p: string)
    requires DistinctTables(c) && i < n <= |Tunnels(c)| <= |ups| && ups[i] && (fam.V6? ==> c.ipv6)
    requires p in FamilyPrefixes(c, fam)
    ensures Has(AddRoutes(map[], canon, c, ups, n), RouteKey(fam, Tunnels(c)[i].table, canon(fam, p)),
                Tunnels(c)[i].name)
  {
    hide IfaceRoutes;
    var t := AddRoutes(map[], canon, c, ups, n - 1);
    if i == n - 1 {
      IfaceRoutesHas(t, canon, c, Tunnels(c)[i], fam, p);
    } else {
      RoutesServedBy(canon, c, ups, n - 1, i, fam, p);
      IfaceRoutesElsewhere(t, canon, c, Tunnels(c)[n - 1], ups[n - 1],
                           RouteKey(fam, Tunnels(c)[i].table, canon(fam, p)), Tunnels(c)[i].name);
    }
  }

  /** The route is wanted for some prefix of a tunnel. */
  ghost predicate WantedFor(canon: Naming, c: Config, f: Iface, up: bool, k: RouteKey) {
    && up && k.table == f.table && (k.fam.V6? ==> c.ipv6)
    && exists p :: Chosen(c, k.fam, p) && k.net == canon(k.fam, p)
  }

  lemma {:induction false} PutRoutesIff(t: Routes, canon: Naming, fam: Family, table: nat,
                                        ps: seq<string>, dev: string, k: RouteKey)
    ensures k in PutRoutes(t, canon, fam, table, ps, dev) <==>
            k in t || (k.fam == fam && k.table == table && exists p :: p in ps && k.net == canon(fam, p))
  {
    if ps != [] {
      var n := |ps| - 1;
      PutRoutesIff(t, canon, fam, table, ps[..n], dev, k);
      assert ps == ps[..n] + [ps[n]];
    }
  }

  lemma FamilyRoutesIff(t: Routes, canon: Naming, c: Config, f: Iface, fam: Family, up: bool, k: RouteKey)
    requires fam.V6? ==> c.ipv6
    ensures k in PutRoutes(t, canon, fam, f.table, PrefixesOf(c, fam, up), f.name) <==>
            k in t || (k.fam == fam && WantedFor(canon, c, f, up, k))
  {
    hide FamilyPrefixes;
    hide Chosen;
    PutRoutesIff(t, canon, fam, f.table, PrefixesOf(c, fam, up), f.name, k);
    forall p ensures p in FamilyPrefixes(c, fam) <==> Chosen(c, fam, p) {
      ChosenIff(c, fam, p);
    }
  }

  lemma IfaceRoutesIff(t: Routes, canon: Naming, c: Config, f: Iface, up: bool, k: RouteKey)
    ensures k in IfaceRoutes(t, canon, c, f, up) <==> k in t || WantedFor(canon, c, f, up, k)
  {
    hide PutRoutes;
    hide PrefixesOf;
    hide Chosen;
    FamilyRoutesIff(t, canon, c, f, V4, up, k);
    if c.ipv6 {
      FamilyRoutesIff(PutRoutes(t, canon, V4, f.table, PrefixesOf(c, V4, up), f.name), canon, c, f, V6, up, k);
    }
  }

  lemma {:induction false} AddRoutesIff(canon: Naming, c: Config, ups: seq<bool>, n: nat, k: RouteKey)
    requires n <= |Tunnels(c)| <= |ups|
    ensures k in AddRoutes(map[], canon, c, ups, n) <==>
            exists i | 0 <= i < n :: WantedFor(canon, c, Tunnels(c)[i], ups[i], k)
  {
    hide IfaceRoutes;
    hide WantedFor;
    if n > 0 {
      AddRoutesIff(canon, c, ups, n - 1, k);
      IfaceRoutesIff(AddRoutes(map[], canon, c, ups, n - 1), canon, c, Tunnels(c)[n - 1], ups[n - 1], k);
    }
  }

  /** The routes wanted are exactly those: one for every prefix of every family in use, in the
      table of every tunnel that is up. */
  lemma WantedRoutesIff(canon: Naming, c: Config, ups: seq<bool>, k: RouteKey)
    requires |Tunnels(c)| <= |ups|
    ensures k in WantedRoutes(canon, c, ups) <==>
            c.enabled && exists i | 0 <= i < |c.ifaces| :: WantedFor(canon, c, c.ifaces[i], ups[i], k)
  {
    AddRoutesIff(canon, c, ups, |Tunnels(c)|, k);
  }

  /** A service that is switched off wants nothing, so a reload takes everything away. */
  lemma DisabledWantsNothing(canon: Naming, c: Config, ups: seq<bool>)
    requires !c.enabled
    ensures WantedRules(c) == map[] && WantedRoutes(canon, c, ups) == map[] && WantedLines(c, ups) == []
  {
  }

  // ----- runs

  /** Besides foreign rules and routes the kernel holds only what the state file lists. */
  ghost predicate Tracks(s: Service, fr: Rules, ft: Routes)
    reads s
  {
    && s.Valid() && s.file.Some?
    && fr.Keys !! RuleKeys(s.file.value) && ft.Keys !! RouteKeys(s.canon, s.file.value)
    && fr.Keys <= s.rules.Keys <= fr.Keys + RuleKeys(s.file.value)
    && ft.Keys <= s.routes.Keys <= ft.Keys + RouteKeys(s.canon, s.file.value)
    && (forall k | k in fr :: s.rules[k] == fr[k])
    && (forall k | k in ft :: s.routes[k] == ft[k])
  }

  /** The kernel holds the foreign objects and exactly the wanted ones. */
  ghost predicate Exact(s: Service, fr: Rules, ft: Routes, c: Config, ups: seq<bool>)
    requires |Tunnels(c)| <= |ups|
    reads s
  {
    && s.rules == fr + WantedRules(c) && s.routes == ft + WantedRoutes(s.canon, c, ups)
    && s.file == Some(WantedLines(c, ups))
  }

  /** The configuration claims no foreign preference or network. */
  ghost predicate Apart(fr: Rules, ft: Routes, canon: Naming, c: Config, ups: seq<bool>)
    requires |Tunnels(c)| <= |ups|
  {
    fr.Keys !! WantedRules(c).Keys && ft.Keys !! WantedRoutes(canon, c, ups).Keys
  }

  /** An object that is there before a reload and wanted after it. */
  ghost predicate Lasting(o: Object, r: Rules, t: Routes, canon: Naming, c: Config, ups: seq<bool>)
    requires |Tunnels(c)| <= |ups|
  {
    match o
    case RuleObject(k, x) => RulesAt(r, k) == [x] && RulesAt(WantedRules(c), k) == [x]
    case RouteObject(k, dev) => Has(t, k, dev) && Has(WantedRoutes(canon, c, ups), k, dev)
  }

  lemma AfterIsExact(fr: Rules, ft: Routes, r: Rules, t: Routes, canon: Naming, was: seq<Line>,
                     c: Config, ups: seq<bool>)
    requires |Tunnels(c)| <= |ups| && Apart(fr, ft, canon, c, ups) && !Aliased(canon, was, WantedLines(c, ups))
    requires fr.Keys !! RuleKeys(was) && ft.Keys !! RouteKeys(canon, was)
    requires fr.Keys <= r.Keys <= fr.Keys + RuleKeys(was) && (forall k | k in fr :: r[k] == fr[k])
    requires ft.Keys <= t.Keys <= ft.Keys + RouteKeys(canon, was) && (forall k | k in ft :: t[k] == ft[k])
    ensures RulesAfter(r, was, c, ups) == fr + WantedRules(c)
    ensures RoutesAfter(t, canon, was, c, ups) == ft + WantedRoutes(canon, c, ups)
  {
    hide Aliased;
    hide AddRules;
    hide AddRoutes;
    hide Lines;
    hide Stale;
    var n, now := |Tunnels(c)|, WantedLines(c, ups);
    AddRulesOver(r, c, n);
    AddRoutesOver(t, canon, c, ups, n);
    LineKeys(canon, c, ups, n);
    StaleRouteKeys(canon, was, now);
    StaleKeysCover(canon, was, now);
    hide RuleKeys;
    hide RouteKeys;
    MapsMeet(fr, r, WantedRules(c), RuleKeys(Stale(was, now)));
    MapsMeet(ft, t, WantedRoutes(canon, c, ups), RouteKeys(canon, Stale(was, now)));
  }

  lemma MapsMeet<K, V>(foreign: map<K, V>, m: map<K, V>, wanted: map<K, V>, stale: set<K>)
    requires foreign.Keys !! stale && wanted.Keys !! stale && foreign.Keys !! wanted.Keys
    requires foreign.Keys <= m.Keys <= foreign.Keys + (stale + wanted.Keys)
    requires forall k | k in foreign :: m[k] == foreign[k]
    ensures (m + wanted) - stale == foreign + wanted
  {
  }

  lemma StaleKeysCover(canon: Naming, was: seq<Line>, now: seq<Line>)
    ensures RuleKeys(was) <= RuleKeys(Stale(was, now)) + RuleKeys(now)
    ensures RouteKeys(canon, was) <= RouteKeys(canon, Stale(was, now)) + RouteKeys(canon, now)
  {
    forall l: Line ensures l in Stale(was, now) <==> l in was && l !in now {
      StaleIff(was, now, l);
    }
  }

  /** Such an object is not touched unless it is a rule that is printed in other words. */
  lemma LastingIsKept(o: Object, r: Rules, t: Routes, canon: Naming, plain: Printing, was: seq<Line>,
                      c: Config, ups: seq<bool>)
    requires |Tunnels(c)| <= |ups| && DistinctPrefs(c) && DistinctTables(c)
    requires Lasting(o, r, t, canon, c, ups) && !Aliased(canon, was, WantedLines(c, ups))
    ensures if o.RuleObject? && !plain(o.rule) then Misprinted(plain, c, r, |Tunnels(c)|, o)
            else !Touches(canon, Stale(was, WantedLines(c, ups)), o) && !Outdated(plain, c, r, |Tunnels(c)|, o)
  {
    hide Aliased;
    hide RuleKeys;
    hide RouteKeys;
    hide AddRoutes;
    hide AddRules;
    var n := |Tunnels(c)|;
    LineKeys(canon, c, ups, n);
    StaleRouteKeys(canon, was, WantedLines(c, ups));
    if o.RuleObject? {
      var k := o.ruleKey;
      WantedFamily(c, n, k);
      WantedRuleKeys(c, n, k);
      forall j | 0 <= j < n && Tunnels(c)[j].pref == k.pref ensures RulesAt(r, k) == [RuleOf(c, Tunnels(c)[j])] {
        RuleServed(c, n, j);
        match k.fam {
          case V4 =>
          case V6 =>
        }
      }
    } else if j :| 0 <= j < n && o.routeKey.table == Tunnels(c)[j].table && o.dev != Tunnels(c)[j].name {
      DevOfTable(canon, c, ups, n, j, o.routeKey);
    }
  }

  lemma {:induction false} WantedFamily(c: Config, n: nat, k: RuleKey)
    requires n <= |Tunnels(c)| && k in AddRules(map[], c, n)
    ensures k.fam.V6? ==> c.ipv6
  {
    if n > 0 && k in AddRules(map[], c, n - 1) {
      WantedFamily(c, n - 1, k);
    }
  }

  lemma {:induction false} PutRoutesDev(t: Routes, canon: Naming, fam: Family, table: nat,
                                        ps: seq<string>, dev: string, k: RouteKey)
    requires k.table == table && (k in t ==> t[k] == dev)
    ensures var u := PutRoutes(t, canon, fam, table, ps, dev); k in u ==> u[k] == dev
  {
    if ps != [] {
      PutRoutesDev(t, canon, fam, table, ps[..|ps| - 1], dev, k);
    }
  }

  lemma IfaceRoutesDev(t: Routes, canon: Naming, c: Config, f: Iface, up: bool, k: RouteKey, dev: string)
    requires k in t ==> t[k] == dev
    requires k.table == f.table ==> f.name == dev
    ensures var u := IfaceRoutes(t, canon, c, f, up); k in u && (k.table == f.table || k in t) ==> u[k] == dev
    ensures k.table != f.table && k !in t ==> k !in IfaceRoutes(t, canon, c, f, up)
  {
    var t4 := PutRoutes(t, canon, V4, f.table, PrefixesOf(c, V4, up), f.name);
    if k.table == f.table {
      PutRoutesDev(t, canon, V4, f.table, PrefixesOf(c, V4, up), f.name, k);
      PutRoutesDev(t4, canon, V6, f.table, PrefixesOf(c, V6, up), f.name, k);
    } else {
      PutRoutesElsewhere(t, canon, V4, f.table, PrefixesOf(c, V4, up), f.name, k);
      PutRoutesElsewhere(t4, canon, V6, f.table, PrefixesOf(c, V6, up), f.name, k);
    }
  }

  /** Wanted routes in a tunnel's own table go through that tunnel. */
  lemma {:induction false} DevOfTable(canon: Naming, c: Config, ups: seq<bool>, n: nat, j: nat, k: RouteKey)
    requires DistinctTables(c) && j < |Tunnels(c)| && n <= |Tunnels(c)| <= |ups| && k.table == Tunnels(c)[j].table
    ensures var t := AddRoutes(map[], canon, c, ups, n); k in t ==> t[k] == Tunnels(c)[j].name
  {
    hide IfaceRoutes;
    if n > 0 {
      DevOfTable(canon, c, ups, n - 1, j, k);
      assert j != n - 1 ==> Tunnels(c)[n - 1].table != k.table;
      IfaceRoutesDev(AddRoutes(map[], canon, c, ups, n - 1), canon, c, Tunnels(c)[n - 1], ups[n - 1], k,
                     Tunnels(c)[j].name);
    }
  }

  /** One reload: afterwards the kernel holds exactly the wanted objects besides the foreign
      ones.  Of the objects wanted before and after, exactly the rules that are printed in
      other words were missing at some moment. */
  method Reload(s: Service, c: Config, ups: seq<bool>, ghost fr: Rules, ghost ft: Routes)
    requires |Tunnels(c)| <= |ups| && Tracks(s, fr, ft) && Apart(fr, ft, s.canon, c, ups)
    requires !Aliased(s.canon, s.file.value, WantedLines(c, ups))
    modifies s
    ensures Exact(s, fr, ft, c, ups) && Tracks(s, fr, ft)
    ensures DistinctPrefs(c) && DistinctTables(c) ==>
              forall o | Lasting(o, old(s.rules), old(s.routes), s.canon, c, ups) ::
                o in s.gone <==> o.RuleObject? && !s.plain(o.rule)
  {
    hide Aliased;
    hide AddRules;
    hide AddRoutes;
    hide Lines;
    hide Stale;
    hide Outdated;
    hide Misprinted;
    hide Touches;
    hide DistinctPrefs;
    hide DistinctTables;
    hide Lasting;
    AfterIsExact(fr, ft, s.rules, s.routes, s.canon, s.file.value, c, ups);
    LineKeys(s.canon, c, ups, |Tunnels(c)|);
    if DistinctPrefs(c) && DistinctTables(c) {
      forall o | Lasting(o, s.rules, s.routes, s.canon, c, ups)
        ensures if o.RuleObject? && !s.plain(o.rule) then Misprinted(s.plain, c, s.rules, |Tunnels(c)|, o)
                else !Touches(s.canon, Stale(s.file.value, WantedLines(c, ups)), o)
                     && !Outdated(s.plain, c, s.rules, |Tunnels(c)|, o)
      {
        LastingIsKept(o, s.rules, s.routes, s.canon, s.plain, s.file.value, c, ups);
      }
    }
    hide RuleKeys;
    hide RouteKeys;
    s.gone := {};
    s.ApplyRoutes(c, ups);
  }

  /** The first reload without a state file: what the configuration names is cleared, the
      rest is foreign. */
  method FirstReload(s: Service, c: Config, ups: seq<bool>)
    requires |Tunnels(c)| <= |ups| && s.Valid() && s.file == None
    modifies s
    ensures var fr, ft := UnownedRules(old(s.rules), c, |c.ifaces|), UnownedRoutes(old(s.routes), c, |c.ifaces|);
            Exact(s, fr, ft, c, ups) && Apart(fr, ft, s.canon, c, ups) && Tracks(s, fr, ft)
  {
    hide UnownedRules;
    hide UnownedRoutes;
    hide AddRules;
    hide AddRoutes;
    hide Lines;
    var n := |Tunnels(c)|;
    ghost var fr, ft := UnownedRules(s.rules, c, |c.ifaces|), UnownedRoutes(s.routes, c, |c.ifaces|);
    AddRulesOver(fr, c, n);
    AddRoutesOver(ft, s.canon, c, ups, n);
    LineKeys(s.canon, c, ups, n);
    WantedKeys(s.canon, s.rules, s.routes, c, ups);
    NoLines(s.canon);
    hide RuleKeys;
    hide RouteKeys;
    s.ApplyRoutes(c, ups);
    assert s.rules == AddRules(fr, c, n) && s.routes == AddRoutes(ft, s.canon, c, ups, n);
  }

  lemma NoLines(canon: Naming)
    ensures RuleKeys([]) == {} && RouteKeys(canon, []) == {}
  {
  }

  lemma {:induction false} WantedRuleKeys(c: Config, n: nat, k: RuleKey)
    requires n <= |Tunnels(c)| && k in AddRules(map[], c, n)
    ensures exists j | 0 <= j < n :: Tunnels(c)[j].pref == k.pref
  {
    var f := Tunnels(c)[n - 1];
    if f.pref != k.pref {
      WantedRuleKeys(c, n - 1, k);
    }
  }

  lemma {:induction false} WantedRouteKeys(canon: Naming, c: Config, ups: seq<bool>, n: nat, k: RouteKey)
    requires n <= |Tunnels(c)| <= |ups| && k in AddRoutes(map[], canon, c, ups, n)
    ensures exists j | 0 <= j < n :: Tunnels(c)[j].table == k.table
  {
    hide IfaceRoutes;
    if n > 0 {
      var f, t := Tunnels(c)[n - 1], AddRoutes(map[], canon, c, ups, n - 1);
      if f.table != k.table {
        if k in t {
          WantedRouteKeys(canon, c, ups, n - 1, k);
        } else {
          IfaceRoutesDev(t, canon, c, f, ups[n - 1], k, "");
        }
      }
    }
  }

  lemma WantedKeys(canon: Naming, r: Rules, t: Routes, c: Config, ups: seq<bool>)
    requires |Tunnels(c)| <= |ups|
    ensures UnownedRules(r, c, |c.ifaces|).Keys !! WantedRules(c).Keys
    ensures UnownedRoutes(t, c, |c.ifaces|).Keys !! WantedRoutes(canon, c, ups).Keys
  {
    hide AddRules;
    hide AddRoutes;
    var n := |Tunnels(c)|;
    forall k | k in WantedRules(c) ensures k !in UnownedRules(r, c, |c.ifaces|) {
      WantedRuleKeys(c, n, k);
    }
    forall k | k in WantedRoutes(canon, c, ups) ensures k !in UnownedRoutes(t, c, |c.ifaces|) {
      WantedRouteKeys(canon, c, ups, n, k);
    }
  }

  /** What happens while the service runs: it reloads, or a device goes away and the kernel
      drops its routes. */
  datatype Step = Reloaded(c: Config, ups: seq<bool>) | LinkDown(dev: string)

  function Without(t: Routes, dev: string): Routes {
    map k | k in t && t[k] != dev :: t[k]
  }

  function Surviving(ft: Routes, steps: seq<Step>): Routes {
    if steps == [] then ft
    else
      var before := Surviving(ft, steps[..|steps| - 1]);
      match steps[|steps| - 1]
      case Reloaded(_, _) => before
      case LinkDown(dev) => Without(before, dev)
  }

  /** The prefix texts of the run's configurations name different networks. */
  ghost predicate Unambiguous(canon: Naming, texts: set<string>) {
    forall fam, a, b | a in texts && b in texts && canon(fam, a) == canon(fam, b) :: a == b
  }

  predicate Texts(lines: seq<Line>, texts: set<string>) {
    forall l | l in lines && l.RouteLine? :: l.prefix in texts
  }

  lemma DistinctTextsNeverAlias(canon: Naming, was: seq<Line>, now: seq<Line>, texts: set<string>)
    requires Unambiguous(canon, texts) && Texts(was, texts) && Texts(now, texts)
    ensures !Aliased(canon, was, now)
  {
  }

  lemma {:induction false} RouteLinesTexts(fam: Family, table: nat, ps: seq<string>, texts: set<string>)
    requires forall p | p in ps :: p in texts
    ensures Texts(RouteLines(fam, table, ps), texts)
  {
    if ps != [] {
      RouteLinesTexts(fam, table, ps[..|ps| - 1], texts);
    }
  }

  lemma {:induction false} FilterTexts(ps: seq<string>, fam: Family, p: string)
    requires p in Filter(ps, fam)
    ensures p in ps
  {
    var n := |ps| - 1;
    if p in Filter(ps[..n], fam) {
      FilterTexts(ps[..n], fam, p);
    }
  }

  lemma FamilyTexts(c: Config, f: Iface, fam: Family, up: bool, texts: set<string>)
    requires "default" in texts && forall p | p in c.prefixes :: p in texts
    ensures Texts(FamilyLines(c, f, fam, up), texts)
  {
    forall p | p in PrefixesOf(c, fam, up) ensures p in texts {
      if c.prefixes != [] {
        FilterTexts(c.prefixes, fam, p);
      }
    }
    RouteLinesTexts(fam, f.table, PrefixesOf(c, fam, up), texts);
  }

  lemma {:induction false} WantedTexts(c: Config, ups: seq<bool>, n: nat, texts: set<string>)
    requires n <= |Tunnels(c)| <= |ups|
    requires "default" in texts && forall p | p in c.prefixes :: p in texts
    ensures Texts(Lines(c, ups, n), texts)
  {
    if n > 0 {
      hide FamilyLines;
      WantedTexts(c, ups, n - 1, texts);
      FamilyTexts(c, Tunnels(c)[n - 1], V4, ups[n - 1], texts);
      FamilyTexts(c, Tunnels(c)[n - 1], V6, ups[n - 1], texts);
    }
  }

  ghost predicate Fits(step: Step, fr: Rules, ft: Routes, canon: Naming, texts: set<string>) {
    step.Reloaded? ==>
      && |Tunnels(step.c)| <= |step.ups| && Apart(fr, ft, canon, step.c, step.ups)
      && "default" in texts && forall p | p in step.c.prefixes :: p in texts
  }

  /** What the kernel holds after a step, and what was missing at some moment of it. */
  datatype Moment = Moment(rules: Rules, routes: Routes, gone: set<Object>)

  /** What one step of a run did, `left` being the foreign routes before it: a reload is
      exact, and never takes away what is wanted before and after, other than rules that
      are printed in other words. */
  ghost predicate Stepped(step: Step, was: Moment, now: Moment, canon: Naming, plain: Printing, fr: Rules, left: Routes)
    requires step.Reloaded? ==> |Tunnels(step.c)| <= |step.ups|
  {
    match step
    case Reloaded(c, ups) =>
      && now.rules == fr + WantedRules(c) && now.routes == left + WantedRoutes(canon, c, ups)
      && (DistinctPrefs(c) && DistinctTables(c) ==>
            forall o | Lasting(o, was.rules, was.routes, canon, c, ups) ::
              o in now.gone <==> o.RuleObject? && !plain(o.rule))
    case LinkDown(dev) => now.rules == was.rules && now.routes == Without(was.routes, dev)
  }

  /** Every step of a run did what it should. */
  ghost predicate History(steps: seq<Step>, trace: seq<Moment>, canon: Naming, plain: Printing, fr: Rules, ft: Routes)
    requires |trace| == |steps| + 1
  {
    forall i | 0 <= i < |steps| :: (steps[i].Reloaded? ==> |Tunnels(steps[i].c)| <= |steps[i].ups|)
      && Stepped(steps[i], trace[i], trace[i + 1], canon, plain, fr, Surviving(ft, steps[..i]))
  }

  lemma HistoryGrows(steps: seq<Step>, trace: seq<Moment>, step: Step, now: Moment, canon: Naming, plain: Printing,
                     fr: Rules, ft: Routes)
    requires |trace| == |steps| + 1 && History(steps, trace, canon, plain, fr, ft)
    requires step.Reloaded? ==> |Tunnels(step.c)| <= |step.ups|
    requires Stepped(step, trace[|steps|], now, canon, plain, fr, Surviving(ft, steps))
    ensures History(steps + [step], trace + [now], canon, plain, fr, ft)
  {
    hide Stepped;
    hide Surviving;
    assert (steps + [step])[..|steps|] == steps;
    forall i | 0 <= i < |steps| ensures (steps + [step])[..i] == steps[..i] {
    }
  }

  lemma NoHistory(trace: seq<Moment>, canon: Naming, plain: Printing, fr: Rules, ft: Routes)
    requires |trace| == 1
    ensures History([], trace, canon, plain, fr, ft)
  {
  }

  ghost function Now(s: Service): Moment
    reads s
  {
    Moment(s.rules, s.routes, s.gone)
  }

  /** Any run, and then a stop: every reload on the way was exact and made before it broke,
      and in the end everything the service installed is gone, and nothing else. */
  method Lifetime(s: Service, steps: seq<Step>, ghost texts: set<string>, ghost fr: Rules, ghost ft: Routes)
      returns (ghost trace: seq<Moment>)
    requires Tracks(s, fr, ft) && Unambiguous(s.canon, texts) && Texts(s.file.value, texts)
    requires forall step | step in steps :: Fits(step, fr, ft, s.canon, texts)
    modifies s
    ensures |trace| == |steps| + 1 && trace[0] == old(Now(s))
    ensures History(steps, trace, s.canon, s.plain, fr, ft)
    ensures s.rules == fr && s.routes == Surviving(ft, steps) && s.file == None
  {
    hide Unambiguous;
    hide Texts;
    hide RuleKeys;
    hide RouteKeys;
    hide Fits;
    hide Stepped;
    hide History;
    NoHistory([Now(s)], s.canon, s.plain, fr, ft);
    trace := [Now(s)];
    for i := 0 to |steps|
      invariant Tracks(s, fr, Surviving(ft, steps[..i])) && s.file.Some? && Texts(s.file.value, texts)
      invariant Surviving(ft, steps[..i]).Keys <= ft.Keys
      invariant |trace| == i + 1 && trace[0] == old(Now(s)) && trace[i] == Now(s)
      invariant History(steps[..i], trace, s.canon, s.plain, fr, ft)
    {
      assert steps[..i + 1] == steps[..i] + [steps[i]] && steps[..i + 1][..i] == steps[..i] && steps[i] in steps;
      Advance(s, steps[i], texts, fr, Surviving(ft, steps[..i]), ft);
      HistoryGrows(steps[..i], trace, steps[i], Now(s), s.canon, s.plain, fr, ft);
      trace := trace + [Now(s)];
    }
    assert steps[..|steps|] == steps;
    Finish(s, fr, Surviving(ft, steps));
  }

  method Advance(s: Service, step: Step, ghost texts: set<string>,
                 ghost fr: Rules, ghost left: Routes, ghost ft: Routes)
    requires Tracks(s, fr, left) && Unambiguous(s.canon, texts) && Texts(s.file.value, texts)
    requires left.Keys <= ft.Keys && Fits(step, fr, ft, s.canon, texts)
    modifies s
    ensures Tracks(s, fr, if step.LinkDown? then Without(left, step.dev) else left)
    ensures Texts(s.file.value, texts)
    ensures step.Reloaded? ==> |Tunnels(step.c)| <= |step.ups|
    ensures Stepped(step, old(Now(s)), Now(s), s.canon, s.plain, fr, left)
  {
    hide Unambiguous;
    hide Texts;
    hide RuleKeys;
    hide RouteKeys;
    hide Lines;
    hide AddRules;
    hide AddRoutes;
    hide DistinctPrefs;
    hide DistinctTables;
    hide Lasting;
    match step {
      case Reloaded(c, ups) =>
        WantedTexts(c, ups, |Tunnels(c)|, texts);
        DistinctTextsNeverAlias(s.canon, s.file.value, WantedLines(c, ups), texts);
        Reload(s, c, ups, fr, left);
      case LinkDown(dev) =>
        s.routes := Without(s.routes, dev);
    }
  }

  method Finish(s: Service, ghost fr: Rules, ghost ft: Routes)
    requires Tracks(s, fr, ft)
    modifies s
    ensures s.rules == fr && s.routes == ft && s.file == None
  {
    hide RuleKeys;
    hide RouteKeys;
    s.RemoveRoutes();
  }
}
