/** vpn-sticky's nft rules: the first tunnel a connection comes in on is remembered in the
    sticky bits of its mark, and replies carry those bits to the policy rules. */
module StickyMarks {
  import opened Wrappers

  type Mark = bv32

  /** A configured tunnel.  The policy rule is installed with the mark as configured, the
      nft rules use only its bits under the mask. */
  datatype Iface = Iface(name: string, raw: Mark, pref: nat, table: nat)

  datatype Config = Config(mask: Mark, ifaces: seq<Iface>, lan: seq<string>)

  // ----- bits

  /** The bits of a mark under a mask, and the others. */
  function Sticky(x: Mark, mask: Mark): Mark {
    x & mask
  }

  function Rest(x: Mark, mask: Mark): Mark {
    x & !mask
  }

  /** `x & keep_mask | m` of the rules. */
  function Put(x: Mark, mask: Mark, m: Mark): Mark {
    (x & !mask) | m
  }

  lemma PutSetsSticky(x: Mark, mask: Mark, raw: Mark)
    ensures Sticky(Put(x, mask, Sticky(raw, mask)), mask) == Sticky(raw, mask)
  {
  }

  lemma PutKeepsRest(x: Mark, mask: Mark, raw: Mark)
    ensures Rest(Put(x, mask, Sticky(raw, mask)), mask) == Rest(x, mask)
  {
  }

  lemma PutSets(x: Mark, mask: Mark, raw: Mark)
    ensures Sticky(Put(x, mask, Sticky(raw, mask)), mask) == Sticky(raw, mask)
    ensures Rest(Put(x, mask, Sticky(raw, mask)), mask) == Rest(x, mask)
  {
    hide *;
    PutSetsSticky(x, mask, raw);
    PutKeepsRest(x, mask, raw);
  }

  lemma PutAgain(x: Mark, mask: Mark, raw: Mark)
    ensures Put(Put(x, mask, Sticky(raw, mask)), mask, Sticky(raw, mask)) == Put(x, mask, Sticky(raw, mask))
  {
  }

  /** A policy rule `fwmark raw/mask` matches a packet. */
  predicate Matches(raw: Mark, mask: Mark, packet: Mark) {
    (packet ^ raw) & mask == 0
  }

  lemma MatchesOnly(raw: Mark, mask: Mark, packet: Mark)
    requires Matches(raw, mask, packet)
    ensures Sticky(packet, mask) == Sticky(raw, mask)
  {
  }

  lemma MatchesAll(raw: Mark, mask: Mark, packet: Mark)
    requires Sticky(packet, mask) == Sticky(raw, mask)
    ensures Matches(raw, mask, packet)
  {
  }

  /** The mark as configured may have bits outside the mask: they do not matter. */
  lemma MatchesIff(raw: Mark, mask: Mark, packet: Mark)
    ensures Matches(raw, mask, packet) <==> Sticky(packet, mask) == Sticky(raw, mask)
  {
    hide *;
    if Matches(raw, mask, packet) {
      MatchesOnly(raw, mask, packet);
    }
    if Sticky(packet, mask) == Sticky(raw, mask) {
      MatchesAll(raw, mask, packet);
    }
  }

  // ----- the rules

  function OriginalRule(mask: Mark, iface: Iface, iif: string, ct: Mark): Mark {
    if iif == iface.name && Sticky(ct, mask) == 0 then Put(ct, mask, Sticky(iface.raw, mask)) else ct
  }

  function ReplyRule(mask: Mark, iface: Iface, ct: Mark, packet: Mark): Mark {
    if Sticky(ct, mask) == Sticky(iface.raw, mask) then Put(packet, mask, Sticky(iface.raw, mask)) else packet
  }

  function Original(mask: Mark, ifaces: seq<Iface>, iif: string, ct: Mark): Mark {
    if ifaces == [] then ct
    else Original(mask, ifaces[1..], iif, OriginalRule(mask, ifaces[0], iif, ct))
  }

  function Reply(mask: Mark, ifaces: seq<Iface>, ct: Mark, packet: Mark): Mark {
    if ifaces == [] then packet
    else Reply(mask, ifaces[1..], ct, ReplyRule(mask, ifaces[0], ct, packet))
  }

  predicate FromLan(c: Config, iif: string) {
    c.lan == [] || iif in c.lan
  }

  /** What can happen to a connection: a packet in the original direction or a reply comes
      in, a local reply goes out, someone else writes bits of the connection's mark that
      are not sticky. */
  datatype Event =
    | OriginalIn(iif: string)
    | ReplyIn(iif: string, packet: Mark)
    | ReplyOut(packet: Mark)
    | Foreign(bits: Mark)

  function CtAfter(c: Config, ct: Mark, e: Event): Mark {
    match e
    case OriginalIn(iif) => Original(c.mask, c.ifaces, iif, ct)
    case ReplyIn(_, _) => ct
    case ReplyOut(_) => ct
    case Foreign(bits) => Put(Rest(bits, c.mask), c.mask, Sticky(ct, c.mask))
  }

  function CtAfterAll(c: Config, ct: Mark, events: seq<Event>): Mark
    decreases |events|
  {
    if events == [] then ct else CtAfterAll(c, CtAfter(c, ct, events[0]), events[1..])
  }

  predicate IsReply(e: Event) {
    e.ReplyIn? || e.ReplyOut?
  }

  /** Forwarded replies are marked when they come from a LAN interface (any interface when
      none is configured), local ones always. */
  predicate Handled(c: Config, e: Event)
    requires IsReply(e)
  {
    e.ReplyOut? || FromLan(c, e.iif)
  }

  function PacketAfter(c: Config, ct: Mark, e: Event): Mark
    requires IsReply(e)
  {
    if Handled(c, e) then Reply(c.mask, c.ifaces, ct, e.packet) else e.packet
  }

  // ----- policy rules

  datatype Rule = Rule(pref: nat, raw: Mark, mask: Mark, table: nat)

  function Owned(c: Config): seq<Rule> {
    seq(|c.ifaces|, i requires 0 <= i < |c.ifaces| =>
      Rule(c.ifaces[i].pref, c.ifaces[i].raw, c.mask, c.ifaces[i].table))
  }

  /** The matching rule of lowest preference, the first of them on a tie. */
  function Lookup(rules: seq<Rule>, packet: Mark): Option<Rule> {
    if rules == [] then None
    else
      var rest := Lookup(rules[1..], packet);
      if !Matches(rules[0].raw, rules[0].mask, packet) then rest
      else if rest.Some? && rest.value.pref < rules[0].pref then rest
      else Some(rules[0])
  }

  // ----- one packet

  function MarkOf(c: Config, i: nat): Mark
    requires i < |c.ifaces|
  {
    Sticky(c.ifaces[i].raw, c.mask)
  }

  predicate Nonzero(c: Config) {
    forall i | 0 <= i < |c.ifaces| :: MarkOf(c, i) != 0
  }

  predicate DistinctMarks(c: Config) {
    forall i, j | 0 <= i < j < |c.ifaces| :: MarkOf(c, i) != MarkOf(c, j)
  }

  lemma {:induction false} OriginalKeeps(mask: Mark, ifaces: seq<Iface>, iif: string, ct: Mark)
    ensures Rest(Original(mask, ifaces, iif, ct), mask) == Rest(ct, mask)
    ensures Sticky(ct, mask) != 0 || (forall i | 0 <= i < |ifaces| :: ifaces[i].name != iif) ==>
              Original(mask, ifaces, iif, ct) == ct
  {
    hide Sticky;
    hide Rest;
    hide Put;
    if ifaces != [] {
      PutSets(ct, mask, ifaces[0].raw);
      OriginalKeeps(mask, ifaces[1..], iif, OriginalRule(mask, ifaces[0], iif, ct));
    }
  }

  /** A new connection takes the mark of the first tunnel of that name. */
  lemma {:induction false} OriginalMarks(mask: Mark, ifaces: seq<Iface>, i: nat, ct: Mark)
    requires i < |ifaces| && Sticky(ct, mask) == 0 && Sticky(ifaces[i].raw, mask) != 0
    requires forall j | 0 <= j < i :: ifaces[j].name != ifaces[i].name
    ensures Sticky(Original(mask, ifaces, ifaces[i].name, ct), mask) == Sticky(ifaces[i].raw, mask)
  {
    hide Sticky;
    hide Rest;
    hide Put;
    if i == 0 {
      PutSets(ct, mask, ifaces[0].raw);
      OriginalKeeps(mask, ifaces[1..], ifaces[0].name, OriginalRule(mask, ifaces[0], ifaces[0].name, ct));
    } else {
      assert ifaces[0].name != ifaces[i].name;
      OriginalMarks(mask, ifaces[1..], i - 1, ct);
    }
  }

  predicate SomeTunnel(mask: Mark, ifaces: seq<Iface>, ct: Mark) {
    exists i | 0 <= i < |ifaces| :: Sticky(ifaces[i].raw, mask) == Sticky(ct, mask)
  }

  lemma SomeTunnelStep(mask: Mark, ifaces: seq<Iface>, ct: Mark)
    requires ifaces != []
    ensures SomeTunnel(mask, ifaces, ct) <==>
            Sticky(ifaces[0].raw, mask) == Sticky(ct, mask) || SomeTunnel(mask, ifaces[1..], ct)
  {
    hide Sticky;
    if i :| 0 <= i < |ifaces[1..]| && Sticky(ifaces[1..][i].raw, mask) == Sticky(ct, mask) {
      assert ifaces[i + 1] == ifaces[1..][i];
    }
    if i :| 0 <= i < |ifaces| && Sticky(ifaces[i].raw, mask) == Sticky(ct, mask) && i > 0 {
      assert ifaces[i] == ifaces[1..][i - 1];
    }
  }

  /** A reply's sticky bits become those of its connection if a tunnel has them; all else
      stays. */
  lemma {:induction false} ReplyMarks(mask: Mark, ifaces: seq<Iface>, ct: Mark, packet: Mark)
    ensures Reply(mask, ifaces, ct, packet) ==
            if SomeTunnel(mask, ifaces, ct) then Put(packet, mask, Sticky(ct, mask)) else packet
  {
    hide Sticky;
    hide Put;
    hide SomeTunnel;
    if ifaces == [] {
      NoTunnel(mask, ct);
    } else {
      SomeTunnelStep(mask, ifaces, ct);
      PutAgain(packet, mask, ct);
      ReplyMarks(mask, ifaces[1..], ct, ReplyRule(mask, ifaces[0], ct, packet));
    }
  }

  lemma NoTunnel(mask: Mark, ct: Mark)
    ensures !SomeTunnel(mask, [], ct)
  {
  }

  /** No bit outside the mask changes, neither in the connection's mark nor in a packet's. */
  lemma OtherBitsUntouched(c: Config, ct: Mark, e: Event)
    ensures !e.Foreign? ==> Rest(CtAfter(c, ct, e), c.mask) == Rest(ct, c.mask)
    ensures IsReply(e) ==> Rest(PacketAfter(c, ct, e), c.mask) == Rest(e.packet, c.mask)
  {
    hide Sticky;
    hide Rest;
    hide Put;
    hide Original;
    hide Reply;
    hide SomeTunnel;
    if e.OriginalIn? {
      OriginalKeeps(c.mask, c.ifaces, e.iif, ct);
    } else if IsReply(e) {
      ReplyMarks(c.mask, c.ifaces, ct, e.packet);
      PutSets(e.packet, c.mask, ct);
    }
  }

  // ----- whole runs

  lemma EventKeeps(c: Config, ct: Mark, e: Event)
    requires e.OriginalIn? ==> Sticky(ct, c.mask) != 0 || forall i | 0 <= i < |c.ifaces| :: c.ifaces[i].name != e.iif
    ensures Sticky(CtAfter(c, ct, e), c.mask) == Sticky(ct, c.mask)
  {
    hide Sticky;
    hide Rest;
    hide Put;
    hide Original;
    match e {
      case OriginalIn(iif) => OriginalKeeps(c.mask, c.ifaces, iif, ct);
      case Foreign(bits) => PutSets(Rest(bits, c.mask), c.mask, ct);
      case _ =>
    }
  }

  /** Once a connection has sticky bits, no later packet changes them; before an original
      packet arrives on a tunnel it has none. */
  lemma {:induction false} StickyForever(c: Config, ct: Mark, events: seq<Event>)
    requires Sticky(ct, c.mask) != 0 || forall e | e in events && e.OriginalIn? ::
               forall i | 0 <= i < |c.ifaces| :: c.ifaces[i].name != e.iif
    ensures Sticky(CtAfterAll(c, ct, events), c.mask) == Sticky(ct, c.mask)
    decreases |events|
  {
    hide Sticky;
    hide CtAfter;
    if events != [] {
      assert events[0] in events;
      EventKeeps(c, ct, events[0]);
      StickyForever(c, CtAfter(c, ct, events[0]), events[1..]);
    }
  }

  lemma {:induction false} RunsCompose(c: Config, ct: Mark, before: seq<Event>, after: seq<Event>)
    ensures CtAfterAll(c, ct, before + after) == CtAfterAll(c, CtAfterAll(c, ct, before), after)
    decreases |before|
  {
    hide CtAfter;
    if before == [] {
      assert before + after == after;
    } else {
      assert (before + after)[1..] == before[1..] + after;
      RunsCompose(c, CtAfter(c, ct, before[0]), before[1..], after);
    }
  }

  /** The first tunnel a new connection uses decides for good. */
  lemma FirstTunnelWins(c: Config, ct: Mark, before: seq<Event>, i: nat, after: seq<Event>)
    requires i < |c.ifaces| && Sticky(ct, c.mask) == 0 && MarkOf(c, i) != 0
    requires forall e | e in before && e.OriginalIn? :: forall k | 0 <= k < |c.ifaces| :: c.ifaces[k].name != e.iif
    requires forall j | 0 <= j < i :: c.ifaces[j].name != c.ifaces[i].name
    ensures Sticky(CtAfterAll(c, ct, before + ([OriginalIn(c.ifaces[i].name)] + after)), c.mask) == MarkOf(c, i)
  {
    hide Sticky;
    hide Original;
    var e := OriginalIn(c.ifaces[i].name);
    var mid := CtAfterAll(c, ct, before);
    RunsCompose(c, ct, before, [e] + after);
    StickyForever(c, ct, before);
    OriginalMarks(c.mask, c.ifaces, i, mid);
    assert ([e] + after)[1..] == after;
    StickyForever(c, CtAfter(c, mid, e), after);
  }

  // ----- replies and policy rules

  lemma {:induction false} LookupFinds(rules: seq<Rule>, packet: Mark, r: Rule)
    requires r in rules && Matches(r.raw, r.mask, packet)
    requires forall o | o in rules && o != r && Matches(o.raw, o.mask, packet) :: o.pref > r.pref
    ensures Lookup(rules, packet) == Some(r)
  {
    hide Matches;
    LookupIsOne(rules[1..], packet);
    if r in rules[1..] {
      LookupFinds(rules[1..], packet, r);
    } else {
      assert rules[0] == r;
    }
  }

  lemma {:induction false} LookupIsOne(rules: seq<Rule>, packet: Mark)
    ensures Lookup(rules, packet).Some? ==>
              var r := Lookup(rules, packet).value; r in rules && Matches(r.raw, r.mask, packet)
    ensures Lookup(rules, packet).None? ==> forall r | r in rules :: !Matches(r.raw, r.mask, packet)
  {
    hide Matches;
    if rules != [] {
      LookupIsOne(rules[1..], packet);
      assert rules == [rules[0]] + rules[1..];
    }
  }

  /** Marks that the other policy rules do not claim first. */
  predicate GivesWay(others: seq<Rule>, pref: nat, packet: Mark) {
    forall o | o in others :: Matches(o.raw, o.mask, packet) ==> o.pref > pref
  }

  /** A handled reply of a connection that belongs to tunnel `i` is looked up in the
      tunnel's table. */
  lemma ReplyUsesTunnel(c: Config, ct: Mark, i: nat, e: Event, others: seq<Rule>)
    requires DistinctMarks(c) && i < |c.ifaces| && Sticky(ct, c.mask) == MarkOf(c, i)
    requires IsReply(e) && Handled(c, e) && GivesWay(others, c.ifaces[i].pref, PacketAfter(c, ct, e))
    ensures var r := Lookup(Owned(c) + others, PacketAfter(c, ct, e)); r.Some? && r.value == Owned(c)[i]
  {
    hide Sticky;
    hide Rest;
    hide Put;
    hide Reply;
    hide Matches;
    hide Lookup;
    ReplyMarks(c.mask, c.ifaces, ct, e.packet);
    assert SomeTunnel(c.mask, c.ifaces, ct);
    PutSets(e.packet, c.mask, ct);
    var packet := PacketAfter(c, ct, e);
    var rules := Owned(c) + others;
    var r := Owned(c)[i];
    assert rules[i] == r;
    MatchesIff(r.raw, c.mask, packet);
    forall o | o in rules && o != r && Matches(o.raw, o.mask, packet) ensures o.pref > r.pref {
      if o in Owned(c) {
        var j :| 0 <= j < |c.ifaces| && o == Owned(c)[j];
        assert j != i && MarkOf(c, j) == Sticky(o.raw, c.mask);
        MatchesIff(o.raw, c.mask, packet);
      }
    }
    LookupFinds(rules, packet, r);
  }

  /** End to end: a connection first seen on tunnel `i` has all its handled replies looked
      up in that tunnel's table, whatever else happens to it. */
  lemma RepliesGoBack(c: Config, ct: Mark, before: seq<Event>, i: nat, after: seq<Event>, e: Event, others: seq<Rule>)
    requires DistinctMarks(c) && Nonzero(c) && i < |c.ifaces| && Sticky(ct, c.mask) == 0
    requires forall e | e in before && e.OriginalIn? :: forall k | 0 <= k < |c.ifaces| :: c.ifaces[k].name != e.iif
    requires forall j | 0 <= j < i :: c.ifaces[j].name != c.ifaces[i].name
    requires e.ReplyOut? || (e.ReplyIn? && (c.lan == [] || e.iif in c.lan))
    ensures var now := CtAfterAll(c, ct, before + ([OriginalIn(c.ifaces[i].name)] + after));
            GivesWay(others, c.ifaces[i].pref, PacketAfter(c, now, e)) ==>
              var r := Lookup(Owned(c) + others, PacketAfter(c, now, e));
              r.Some? && r.value.table == c.ifaces[i].table
  {
    hide Sticky;
    hide CtAfterAll;
    hide PacketAfter;
    hide Lookup;
    hide GivesWay;
    FirstTunnelWins(c, ct, before, i, after);
    var now := CtAfterAll(c, ct, before + ([OriginalIn(c.ifaces[i].name)] + after));
    if GivesWay(others, c.ifaces[i].pref, PacketAfter(c, now, e)) {
      ReplyUsesTunnel(c, now, i, e, others);
    }
  }

  // ----- exactly which configurations work

  predicate Steered(c: Config, i: nat, ct: Mark, packet: Mark)
    requires i < |c.ifaces|
  {
    var r := Lookup(Owned(c), PacketAfter(c, ct, ReplyOut(packet)));
    r.Some? && r.value.table == c.ifaces[i].table
  }

  /** A connection of tunnel `i` has its replies looked up in table `i`; a packet without
      sticky bits is left to the other rules. */
  ghost predicate Steers(c: Config) {
    && (forall i, ct: Mark, packet: Mark | 0 <= i < |c.ifaces| && Sticky(ct, c.mask) == MarkOf(c, i) ::
          Steered(c, i, ct, packet))
    && (forall packet: Mark | Sticky(packet, c.mask) == 0 :: Lookup(Owned(c), packet).None?)
  }

  predicate DistinctTables(c: Config) {
    forall i, j | 0 <= i < j < |c.ifaces| :: c.ifaces[i].table != c.ifaces[j].table
  }

  lemma SteersIf(c: Config)
    requires DistinctMarks(c) && Nonzero(c)
    ensures Steers(c)
  {
    hide Sticky;
    hide Put;
    hide PacketAfter;
    hide Lookup;
    hide Matches;
    forall i, ct: Mark, packet: Mark | 0 <= i < |c.ifaces| && Sticky(ct, c.mask) == MarkOf(c, i)
      ensures Steered(c, i, ct, packet)
    {
      ReplyUsesTunnel(c, ct, i, ReplyOut(packet), []);
      assert Owned(c) + [] == Owned(c);
    }
    forall packet: Mark | Sticky(packet, c.mask) == 0 ensures Lookup(Owned(c), packet).None? {
      LookupIsOne(Owned(c), packet);
      if Lookup(Owned(c), packet).Some? {
        var r := Lookup(Owned(c), packet).value;
        var i :| 0 <= i < |c.ifaces| && r == Owned(c)[i];
        assert MarkOf(c, i) != 0;
        MatchesIff(r.raw, c.mask, packet);
      }
    }
  }

  lemma SharedMarkMissteers(c: Config, i: nat, j: nat)
    requires DistinctTables(c) && i < j < |c.ifaces| && MarkOf(c, i) == MarkOf(c, j)
    ensures !Steers(c)
  {
    hide Sticky;
    hide PacketAfter;
    hide Lookup;
    var ct := c.ifaces[i].raw;
    assert Sticky(ct, c.mask) == MarkOf(c, i) == MarkOf(c, j);
    assert !(Steered(c, i, ct, 0) && Steered(c, j, ct, 0));
  }

  lemma ZeroMarkCatchesAll(c: Config, i: nat)
    requires i < |c.ifaces| && MarkOf(c, i) == 0
    ensures !Steers(c)
  {
    hide Lookup;
    hide Sticky;
    hide Matches;
    ZeroIsUnmarked(c.mask);
    MatchesIff(c.ifaces[i].raw, c.mask, 0);
    LookupIsOne(Owned(c), 0);
    assert Owned(c)[i] in Owned(c);
  }

  lemma ZeroIsUnmarked(mask: Mark)
    ensures Sticky(0, mask) == 0
  {
  }

  /** Tunnels with tables of their own steer replies correctly, and leave other packets
      alone, exactly when their marks differ and none is zero under the mask. */
  lemma SteersIff(c: Config)
    requires DistinctTables(c)
    ensures Steers(c) <==> DistinctMarks(c) && Nonzero(c)
  {
    hide Steers;
    hide Sticky;
    if DistinctMarks(c) && Nonzero(c) {
      SteersIf(c);
    } else if !DistinctMarks(c) {
      var i, j :| 0 <= i < j < |c.ifaces| && MarkOf(c, i) == MarkOf(c, j);
      SharedMarkMissteers(c, i, j);
    } else {
      var i :| 0 <= i < |c.ifaces| && MarkOf(c, i) == 0;
      ZeroMarkCatchesAll(c, i);
    }
  }

  // ----- what the template collects

  /** An `iface` section; an option that is missing or empty is None. */
  datatype Section = Section(id: string, name: Option<string>, mark: Option<Mark>,
                             pref: Option<nat>, table: Option<nat>)

  function NameOf(s: Section): string {
    if s.name.Some? then s.name.value else s.id
  }

  predicate Complete(s: Section) {
    NameOf(s) != "" && s.mark.Some? && s.pref.Some? && s.table.Some?
  }

  function Collected(sections: seq<Section>): seq<Iface> {
    if sections == [] then []
    else
      var s := sections[|sections| - 1];
      var rest := Collected(sections[..|sections| - 1]);
      if Complete(s) then rest + [Iface(NameOf(s), s.mark.value, s.pref.value, s.table.value)] else rest
  }

  /** A section gives one tunnel or none, and sections are taken in order. */
  lemma {:induction false} CollectedInOrder(a: seq<Section>, b: seq<Section>, s: Section)
    ensures Collected(a + b) == Collected(a) + Collected(b)
    ensures Collected([s]) ==
              var name := if s.name.Some? then s.name.value else s.id;
              if name != "" && s.mark.Some? && s.pref.Some? && s.table.Some?
              then [Iface(name, s.mark.value, s.pref.value, s.table.value)] else []
  {
    if b == [] {
      assert a + b == a;
    } else {
      var n := |b| - 1;
      assert (a + b)[..|a + b| - 1] == a + b[..n];
      CollectedInOrder(a, b[..n], s);
    }
  }

  method CollectIfaces(sections: seq<Section>) returns (ifaces: seq<Iface>)
    ensures ifaces == Collected(sections)
  {
    ifaces := [];
    for i := 0 to |sections|
      invariant ifaces == Collected(sections[..i])
    {
      assert sections[..i + 1][..i] == sections[..i];
      var s := sections[i];
      var name := if s.name.Some? then s.name.value else s.id;
      if name == "" || s.mark.None? || s.pref.None? || s.table.None? {
        continue;
      }
      ifaces := ifaces + [Iface(name, s.mark.value, s.pref.value, s.table.value)];
    }
    assert sections[..|sections|] == sections;
  }

  /** A tunnel is listed exactly when some section describes it in full. */
  lemma {:induction false} CollectedIff(sections: seq<Section>, x: Iface)
    ensures x in Collected(sections) <==>
            exists s | s in sections :: Complete(s) && x == Iface(NameOf(s), s.mark.value, s.pref.value, s.table.value)
  {
    if sections != [] {
      var n := |sections| - 1;
      CollectedIff(sections[..n], x);
      assert sections == sections[..n] + [sections[n]];
    }
  }

  /** `x` is listed somewhere before `y` is listed at all. */
  ghost predicate ComesBefore(lan: seq<string>, x: string, y: string) {
    exists p | 0 <= p < |lan| :: lan[p] == x && forall q | 0 <= q <= p :: lan[q] != y
  }

  /** Each LAN interface once, blanks dropped, in the order they are listed. */
  method UniqueLan(lan: seq<string>) returns (uniq: seq<string>)
    ensures forall x :: x in uniq <==> x in lan && x != ""
    ensures forall i, j | 0 <= i < j < |uniq| :: uniq[i] != uniq[j]
    ensures forall i, j | 0 <= i < j < |uniq| :: ComesBefore(lan, uniq[i], uniq[j])
  {
    var seen: set<string> := {};
    uniq := [];
    for i := 0 to |lan|
      invariant forall x :: x in seen <==> x in uniq
      invariant forall x :: x in uniq <==> x in lan[..i] && x != ""
      invariant forall i, j | 0 <= i < j < |uniq| :: uniq[i] != uniq[j]
      invariant forall i, j | 0 <= i < j < |uniq| :: ComesBefore(lan, uniq[i], uniq[j])
    {
      assert lan[..i + 1] == lan[..i] + [lan[i]];
      forall x | x in uniq && lan[i] !in uniq && lan[i] != "" ensures ComesBefore(lan, x, lan[i]) {
        var p :| 0 <= p < i && lan[p] == x;
        assert forall q | 0 <= q <= p :: lan[..i][q] == lan[q];
      }
      if lan[i] == "" || lan[i] in seen {
        continue;
      }
      seen := seen + {lan[i]};
      uniq := uniq + [lan[i]];
    }
    assert lan[..|lan|] == lan;
  }
}
