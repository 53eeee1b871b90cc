/** rpcd-mod-bird's route lookup: exact match and longest covering prefix. */
module BirdMatch {
  import opened Wrappers
  import opened Text
  import opened Bits
  import opened BirdRoute

  // ----- addresses as numbers

  function Num(s: seq<nat>): nat {
    if s == [] then 0 else 256 * Num(s[..|s| - 1]) + s[|s| - 1]
  }

  /** A network covers a prefix of its family that is no shorter and agrees with it, as a
      number, above the network's host bits. */
  ghost predicate Covers(q: Prefix, e: Prefix) {
    && e.v6 == q.v6
    && e.len <= q.len <= Width(e.v6)
    && Num(q.addr) / Pow2(Width(e.v6) - e.len) == Num(e.addr) / Pow2(Width(e.v6) - e.len)
  }

  lemma Shl8(x: nat)
    ensures Shl(x, 8) == 256 * x
  {
    assert Shl(x, 1) == 2 * x;
    assert Shl(x, 2) == 2 * Shl(x, 1);
    assert Shl(x, 4) == 2 * Shl(x, 3) == 4 * Shl(x, 2);
    assert Shl(x, 6) == 2 * Shl(x, 5) == 4 * Shl(x, 4);
    assert Shl(x, 8) == 2 * Shl(x, 7) == 4 * Shl(x, 6);
  }

  lemma {:induction false} NumInjective(a: seq<nat>, b: seq<nat>)
    requires |a| == |b| && Bytes(a) && Bytes(b)
    ensures Num(a) == Num(b) <==> a == b
  {
    if a != [] {
      var n := |a| - 1;
      NumInjective(a[..n], b[..n]);
      assert a == a[..n] + [a[n]] && b == b[..n] + [b[n]];
    }
  }

  lemma {:induction false} TopBytes(s: seq<nat>, j: nat)
    requires Bytes(s) && j <= |s|
    ensures Shr(Num(s), 8 * (|s| - j)) == Num(s[..j])
  {
    if j == |s| {
      assert s[..j] == s;
    } else {
      var n := |s| - 1;
      TopBytes(s[..n], j);
      assert s[..n][..j] == s[..j];
      DropByte(Num(s[..n]), s[n]);
      ShrTwice(Num(s), 8, 8 * (n - j));
    }
  }

  lemma DropByte(high: nat, low: nat)
    requires low < 256
    ensures Shr(256 * high + low, 8) == high
  {
    assert Pow2(8) == 256 && Pow2(0) == 1;
    Shl8(high);
    ShrSplits(high, low, 8, 8);
  }

  lemma NextByte(s: seq<nat>, full: nat)
    requires full < |s|
    ensures Num(s[..full + 1]) == Shl(Num(s[..full]), 8) + s[full]
  {
    var t := s[..full + 1];
    assert t[..full] == s[..full];
    Shl8(Num(s[..full]));
  }

  lemma TopBits(s: seq<nat>, full: nat, bits: nat)
    requires Bytes(s) && full < |s| && bits < 8
    ensures Shr(Num(s), 8 * (|s| - full) - bits) == Shl(Num(s[..full]), bits) + Shr(s[full], 8 - bits)
    ensures Shr(s[full], 8 - bits) < Pow2(bits)
  {
    hide Num;
    hide Shr;
    hide Shl;
    assert Pow2(8) == 256;
    hide Pow2;
    TopBytes(s, full + 1);
    NextByte(s, full);
    var left := 8 * (|s| - full - 1);
    ShrTwice(Num(s), left, 8 - bits);
    ShrSplits(Num(s[..full]), s[full], 8, 8 - bits);
  }

  /** Comparing whole bytes and then one masked byte compares the top bits. */
  lemma AgreeIff(a: seq<nat>, b: seq<nat>, len: nat)
    requires |a| == |b| && Bytes(a) && Bytes(b) && len <= 8 * |a|
    ensures var full, bits := len / 8, len % 8;
            Num(a) / Pow2(8 * |a| - len) == Num(b) / Pow2(8 * |a| - len) <==>
            && a[..full] == b[..full]
            && (bits > 0 ==> And(a[full], Shl(255, 8 - bits)) == And(b[full], Shl(255, 8 - bits)))
  {
    hide And;
    hide Num;
    hide Pow2;
    hide Shl;
    hide Shr;
    var full, bits := len / 8, len % 8;
    ShrDivides(Num(a), 8 * |a| - len);
    ShrDivides(Num(b), 8 * |a| - len);
    NumInjective(a[..full], b[..full]);
    if bits == 0 {
      TopBytes(a, full);
      TopBytes(b, full);
    } else {
      TopBits(a, full, bits);
      TopBits(b, full, bits);
      PartsDiffer(Num(a[..full]), Shr(a[full], 8 - bits), Num(b[..full]), Shr(b[full], 8 - bits), bits);
      MaskCompares(a[full], b[full], 8 - bits);
    }
  }

  method NetCovers(q: Prefix, e: Prefix) returns (r: bool)
    requires WellFormed(q) && WellFormed(e)
    ensures r <==> Covers(q, e)
  {
    hide And;
    hide Num;
    hide Pow2;
    hide Shl;
    if e.v6 != q.v6 {
      return false;
    }
    if e.len > q.len {
      return false;
    }
    AgreeIff(q.addr, e.addr, e.len);
    var full := e.len / 8;
    var bits := e.len % 8;
    for i := 0 to full
      invariant q.addr[..i] == e.addr[..i]
    {
      if q.addr[i] != e.addr[i] {
        assert q.addr[..full][i] != e.addr[..full][i];
        return false;
      }
    }
    if bits > 0 {
      var mask := Shl(255, 8 - bits);
      if And(q.addr[full], mask) != And(e.addr[full], mask) {
        return false;
      }
    }
    return true;
  }

  method BytesEq(a: seq<nat>, b: seq<nat>) returns (r: bool)
    ensures r <==> a == b
  {
    if |a| != |b| {
      return false;
    }
    for i := 0 to |a|
      invariant a[..i] == b[..i]
    {
      if a[i] != b[i] {
        return false;
      }
    }
    return true;
  }

  // ----- the searches

  function Entry(routes: seq<Route>, i: nat): Option<Prefix>
    requires i < |routes|
  {
    Parse(routes[i].prefix)
  }

  ghost predicate Candidate(routes: seq<Route>, q: Prefix, i: nat) {
    i < |routes| && Entry(routes, i).Some? && Covers(q, Entry(routes, i).value)
  }

  /** Entry `i` is the first of the longest entries that cover `q`. */
  ghost predicate Longest(routes: seq<Route>, q: Prefix, i: nat) {
    && Candidate(routes, q, i)
    && forall j: nat | Candidate(routes, q, j) ::
         && Entry(routes, j).value.len <= Entry(routes, i).value.len
         && (j < i ==> Entry(routes, j).value.len < Entry(routes, i).value.len)
  }

  /** Entry `i` is the first with exactly this address and length. */
  ghost predicate FirstExact(routes: seq<Route>, q: Prefix, i: nat) {
    && i < |routes| && Entry(routes, i) == Some(q)
    && forall j | 0 <= j < i :: Entry(routes, j) != Some(q)
  }

  method ExactRoute(routes: seq<Route>, prefix: string) returns (r: Option<Route>)
    ensures r.None? <==> Parse(prefix).None? || forall j | 0 <= j < |routes| :: Entry(routes, j) != Parse(prefix)
    ensures r.Some? ==> exists i: nat :: FirstExact(routes, Parse(prefix).value, i) && r.value == routes[i]
  {
    hide Parse;
    var q := ParsePrefix(prefix);
    if q.None? {
      return None;
    }
    for i := 0 to |routes|
      invariant forall j | 0 <= j < i :: Entry(routes, j) != q
    {
      var e := ParsePrefix(routes[i].prefix);
      assert e == Entry(routes, i);
      if e.Some? && e.value.v6 == q.value.v6 && e.value.len == q.value.len {
        var same := BytesEq(e.value.addr, q.value.addr);
        if same {
          assert FirstExact(routes, q.value, i);
          return Some(routes[i]);
        }
      }
    }
    return None;
  }

  ghost predicate LongestBefore(routes: seq<Route>, q: Prefix, n: nat, best: nat)
    requires n <= |routes|
  {
    && best < n && Candidate(routes, q, best)
    && forall j: nat | Candidate(routes, q, j) && j < n ::
         && Entry(routes, j).value.len <= Entry(routes, best).value.len
         && (j < best ==> Entry(routes, j).value.len < Entry(routes, best).value.len)
  }

  method BestCoveringRoute(routes: seq<Route>, prefix: string) returns (r: Option<Route>)
    ensures r.None? <==> Parse(prefix).None? || forall i: nat :: !Candidate(routes, Parse(prefix).value, i)
    ensures r.Some? ==> exists i: nat :: Longest(routes, Parse(prefix).value, i) && r.value == routes[i]
  {
    hide Parse;
    hide Covers;
    hide WellFormed;
    var q := ParsePrefix(prefix);
    if q.None? {
      return None;
    }
    ParseIsWellFormed(prefix);
    r := None;
    var bestLen: int := -1;
    ghost var best := 0;
    for i := 0 to |routes|
      invariant r.None? ==> bestLen == -1 && forall j: nat | Candidate(routes, q.value, j) :: j >= i
      invariant r.Some? ==> LongestBefore(routes, q.value, i, best)
      invariant r.Some? ==> r.value == routes[best] && bestLen == Entry(routes, best).value.len
    {
      var e := ParsePrefix(routes[i].prefix);
      assert e == Entry(routes, i);
      if e.None? {
        continue;
      }
      ParseIsWellFormed(routes[i].prefix);
      if e.value.v6 != q.value.v6 || e.value.len > q.value.len || e.value.len <= bestLen {
        assert Candidate(routes, q.value, i) ==> e.value.len <= bestLen by { CoversMeans(q.value, e.value); }
        continue;
      }
      var covers := NetCovers(q.value, e.value);
      if !covers {
        continue;
      }
      r, bestLen, best := Some(routes[i]), e.value.len, i;
    }
    if r.Some? {
      assert Longest(routes, q.value, best);
    }
  }

  lemma CoversMeans(q: Prefix, e: Prefix)
    ensures Covers(q, e) ==> e.v6 == q.v6 && e.len <= q.len
  {
  }

  lemma LongestIsUnique(routes: seq<Route>, q: Prefix, i: nat, j: nat)
    requires Longest(routes, q, i) && Longest(routes, q, j)
    ensures i == j
  {
  }

  // ----- tables without host bits

  ghost predicate Canonical(p: Prefix)
    requires p.len <= Width(p.v6)
  {
    Num(p.addr) % Pow2(Width(p.v6) - p.len) == 0
  }

  ghost predicate CanonicalTable(routes: seq<Route>) {
    forall i | 0 <= i < |routes| && Entry(routes, i).Some? ::
      Entry(routes, i).value.len <= Width(Entry(routes, i).value.v6) && Canonical(Entry(routes, i).value)
  }

  /** The same network once host bits are ignored. */
  ghost predicate SameNetwork(q: Prefix, e: Prefix) {
    Covers(q, e) && q.len == e.len
  }

  lemma SameAndCanonical(q: Prefix, e: Prefix)
    requires WellFormed(q) && WellFormed(e) && SameNetwork(q, e) && Canonical(q) && Canonical(e)
    ensures q == e
  {
    hide Num;
    hide Pow2;
    NumInjective(q.addr, e.addr);
    SameQuotient(Num(q.addr), Num(e.addr), Pow2(Width(e.v6) - e.len));
  }

  lemma SameQuotient(x: nat, y: nat, d: nat)
    requires d > 0 && x / d == y / d && x % d == y % d
    ensures x == y
  {
    assert x == d * (x / d) + x % d;
    assert y == d * (y / d) + y % d;
  }

  /** On a table without host bits, an exact match is the longest covering entry. */
  lemma ExactIsLongest(routes: seq<Route>, prefix: string, i: nat)
    requires CanonicalTable(routes) && Parse(prefix).Some?
    requires FirstExact(routes, Parse(prefix).value, i)
    ensures Longest(routes, Parse(prefix).value, i)
  {
    hide Parse;
    hide Num;
    hide Pow2;
    var q := Parse(prefix).value;
    ParseIsWellFormed(prefix);
    forall j: nat | Candidate(routes, q, j)
      ensures Entry(routes, j).value.len <= q.len && (j < i ==> Entry(routes, j).value.len < q.len)
    {
      var e := Entry(routes, j).value;
      ParseIsWellFormed(routes[j].prefix);
      if e.len == q.len {
        SameAndCanonical(q, e);
      }
    }
  }

  /** Entry `i` is the first that is the same network with host bits ignored: what the
      exact lookup's description promises. */
  ghost predicate FirstSame(routes: seq<Route>, q: Prefix, i: nat) {
    && i < |routes| && Entry(routes, i).Some? && SameNetwork(q, Entry(routes, i).value)
    && forall j | 0 <= j < i && Entry(routes, j).Some? :: !SameNetwork(q, Entry(routes, j).value)
  }

  lemma {:induction false} FirstSameExists(routes: seq<Route>, q: Prefix, n: nat)
    requires n < |routes| && Entry(routes, n).Some? && SameNetwork(q, Entry(routes, n).value)
    ensures exists i: nat :: FirstSame(routes, q, i)
  {
    hide SameNetwork;
    hide Parse;
    if j :| 0 <= j < n && Entry(routes, j).Some? && SameNetwork(q, Entry(routes, j).value) {
      FirstSameExists(routes, q, j);
    } else {
      assert FirstSame(routes, q, n);
    }
  }

  /** The exact lookup compares raw bytes, so on a table without host bits it finds the
      same network exactly when the query has no host bits either. */
  lemma ExactIgnoresHostBitsIff(routes: seq<Route>, prefix: string)
    requires CanonicalTable(routes) && Parse(prefix).Some?
    ensures var q := Parse(prefix).value;
            && q.len <= Width(q.v6)
            && ((forall i: nat :: FirstExact(routes, q, i) <==> FirstSame(routes, q, i))
                <==> Canonical(q) || forall i: nat :: !FirstSame(routes, q, i))
  {
    hide Parse;
    hide Num;
    hide Pow2;
    var q := Parse(prefix).value;
    ParseIsWellFormed(prefix);
    if Canonical(q) {
      forall i | 0 <= i < |routes| && Entry(routes, i).Some?
        ensures SameNetwork(q, Entry(routes, i).value) <==> Entry(routes, i) == Some(q)
      {
        ParseIsWellFormed(routes[i].prefix);
        if SameNetwork(q, Entry(routes, i).value) {
          SameAndCanonical(q, Entry(routes, i).value);
        }
      }
      assert forall i: nat :: FirstExact(routes, q, i) <==> FirstSame(routes, q, i);
    } else {
      assert forall i: nat :: !FirstExact(routes, q, i);
    }
  }

  /** A query with host bits: the table holds its network, the exact lookup misses it. */
  lemma ExactMissesHostBits()
    ensures var routes := [Route(Dotted([10, 0, 0, 0]) + ['/'] + Dec(8), "")];
            var query := Dotted([10, 0, 0, 1]) + ['/'] + Dec(8);
            && CanonicalTable(routes) && Parse(query).Some?
            && FirstSame(routes, Parse(query).value, 0)
            && forall i: nat :: !FirstExact(routes, Parse(query).value, i)
  {
    var net, host := [10, 0, 0, 0], [10, 0, 0, 1];
    V4RoundTrip(net, 8);
    V4RoundTrip(host, 8);
    hide Parse;
    hide Dotted;
    hide Dec;
    TenNet(net, 0);
    TenNet(host, 1);
    hide Num;
    hide Pow2;
    OneEntry([Route(Dotted(net) + ['/'] + Dec(8), "")], Prefix(false, net, 8), Prefix(false, host, 8));
  }

  lemma OneEntry(routes: seq<Route>, e: Prefix, q: Prefix)
    requires |routes| == 1 && Entry(routes, 0) == Some(e) && e.len <= Width(e.v6) && Canonical(e)
    requires SameNetwork(q, e) && q != e
    ensures CanonicalTable(routes) && FirstSame(routes, q, 0) && forall i: nat :: !FirstExact(routes, q, i)
  {
    hide Parse;
    hide Covers;
    hide Num;
    hide Pow2;
  }

  lemma TenNet(addr: seq<nat>, last: nat)
    requires addr == [10, 0, 0, last] && last < 256
    ensures Num(addr) / Pow2(24) == 10 && Num(addr) % Pow2(24) == last
  {
    assert addr[..3] == [10, 0, 0] && [10, 0, 0][..2] == [10, 0] && [10, 0][..1] == [10] && [10][..0] == [];
    assert Num(addr) == 0xA00_0000 + last;
    assert Pow2(6) == 64;
    Pow2Step(6);
    Pow2Step(12);
    Pow2Step(18);
  }

  lemma Pow2Step(n: nat)
    ensures Pow2(n + 6) == 64 * Pow2(n)
  {
    assert Pow2(n + 2) == 4 * Pow2(n);
    assert Pow2(n + 4) == 4 * Pow2(n + 2);
  }
}
