/** rpcd-mod-bird's route lookup: address and prefix texts, and longest-prefix match by
    bytes and masks. */
module BirdRoute {
  import opened Text
  import opened Wrappers

  /** A parsed address or prefix; a bare address is its own host route. */
  datatype Prefix = Prefix(v6: bool, addr: seq<nat>, len: nat)

  datatype Route = Route(prefix: string, details: string)

  function Width(v6: bool): nat {
    if v6 then 128 else 32
  }

  predicate Bytes(s: seq<nat>) {
    forall i | 0 <= i < |s| :: s[i] < 256
  }

  ghost predicate WellFormed(p: Prefix) {
    8 * |p.addr| == Width(p.v6) && Bytes(p.addr) && p.len <= Width(p.v6)
  }

  // ----- IPv4 texts

  predicate IsOctet(s: string) {
    1 <= |s| <= 3 && AllDigits(s) && Val(s) <= 255
  }

  function V4(s: string): Option<seq<nat>> {
    var t := Split(s, '.');
    if |t| == 4 && forall i | 0 <= i < 4 :: IsOctet(t[i])
    then Some(seq(4, i requires 0 <= i < 4 => Val(t[i]))) else None
  }

  /** The accepted IPv4 texts: four numbers of one to three digits, none above 255. */
  lemma V4Accepts(s: string, addr: seq<nat>)
    ensures V4(s) == Some(addr) <==>
            exists t: seq<string> :: |t| == 4 && (forall i | 0 <= i < 4 :: IsOctet(t[i])) && s == Join(t, '.')
              && |addr| == 4 && forall i | 0 <= i < 4 :: addr[i] == Val(t[i])
  {
    if V4(s) == Some(addr) {
      JoinSplit(s, '.');
    }
    forall t: seq<string> | |t| == 4 && (forall i | 0 <= i < 4 :: IsOctet(t[i])) && s == Join(t, '.')
                            && |addr| == 4 && forall i | 0 <= i < 4 :: addr[i] == Val(t[i])
      ensures V4(s) == Some(addr)
    {
      forall i | 0 <= i < 4 ensures Free(t[i], '.') {
        assert IsOctet(t[i]);
      }
      SplitJoin(t, '.');
      assert V4(s).value == addr;
    }
  }

  method Ipv4Bytes(s: string) returns (r: Option<seq<nat>>)
    ensures r == V4(s)
  {
    var t := Split(s, '.');
    if |t| != 4 {
      return None;
    }
    var b := [];
    for i := 0 to 4
      invariant |b| == i && forall k | 0 <= k < i :: IsOctet(t[k]) && b[k] == Val(t[k])
    {
      if !(1 <= |t[i]| <= 3 && AllDigits(t[i])) {
        return None;
      }
      var v := Val(t[i]);
      if v > 255 {
        return None;
      }
      b := b + [v];
    }
    assert b == seq(4, i requires 0 <= i < 4 => Val(t[i]));
    return Some(b);
  }

  // ----- IPv6 groups

  predicate AllHex(s: string) {
    forall i | 0 <= i < |s| :: IsHex(s[i])
  }

  function HexVal(s: string): nat
    requires AllHex(s)
  {
    if s == "" then 0 else 16 * HexVal(s[..|s| - 1]) + HexDigit(s[|s| - 1])
  }

  predicate IsHextet(s: string) {
    1 <= |s| <= 4 && AllHex(s)
  }

  predicate Hextets(groups: seq<string>) {
    forall i | 0 <= i < |groups| :: IsHextet(groups[i])
  }

  lemma {:induction false} HexBound(s: string)
    requires AllHex(s)
    ensures |s| <= 1 ==> HexVal(s) < 16
    ensures |s| <= 2 ==> HexVal(s) < 256
    ensures |s| <= 3 ==> HexVal(s) < 4096
    ensures |s| <= 4 ==> HexVal(s) < 65536
  {
    if s != "" {
      HexBound(s[..|s| - 1]);
      assert |s| == 1 ==> HexVal(s[..|s| - 1]) == 0;
    }
  }

  /** Two bytes a group, the high one first. */
  function GroupBytes(groups: seq<string>): (b: seq<nat>)
    requires Hextets(groups)
    ensures |b| == 2 * |groups|
  {
    if groups == [] then []
    else
      var n := |groups| - 1;
      var v := HexVal(groups[n]);
      GroupBytes(groups[..n]) + [v / 256 % 256, v % 256]
  }

  lemma HextetBound(s: string)
    requires IsHextet(s)
    ensures HexVal(s) < 65536
  {
    HexBound(s);
  }

  lemma {:induction false} GroupBytesAt(groups: seq<string>, i: nat)
    requires Hextets(groups) && i < |groups|
    ensures 256 * GroupBytes(groups)[2 * i] + GroupBytes(groups)[2 * i + 1] == HexVal(groups[i])
    ensures GroupBytes(groups)[2 * i] < 256 && GroupBytes(groups)[2 * i + 1] < 256
  {
    hide HexVal;
    var n := |groups| - 1;
    var b := GroupBytes(groups[..n]);
    assert GroupBytes(groups) == b + [HexVal(groups[n]) / 256 % 256, HexVal(groups[n]) % 256];
    if i == n {
      assert IsHextet(groups[n]);
      HextetBound(groups[n]);
    } else {
      assert groups[..n][i] == groups[i];
      GroupBytesAt(groups[..n], i);
    }
  }

  method HextetsToBytes(groups: seq<string>) returns (r: Option<seq<nat>>)
    ensures r == if Hextets(groups) then Some(GroupBytes(groups)) else None
  {
    var b := [];
    for i := 0 to |groups|
      invariant Hextets(groups[..i]) && b == GroupBytes(groups[..i])
    {
      if !(1 <= |groups[i]| <= 4 && AllHex(groups[i])) {
        assert !IsHextet(groups[i]);
        return None;
      }
      var v := HexVal(groups[i]);
      assert groups[..i + 1] == groups[..i] + [groups[i]];
      b := b + [v / 256 % 256];
      b := b + [v % 256];
    }
    assert groups[..|groups|] == groups;
    return Some(b);
  }

  // ----- IPv6 texts

  /** Where the first "::" starts, or the length of the text. */
  function PairAt(s: string): (d: nat)
    ensures d <= |s| && (d < |s| ==> d + 2 <= |s| && s[d] == ':' && s[d + 1] == ':')
  {
    if s == "" then 0
    else if s[0] == ':' && |s| > 1 && s[1] == ':' then 0
    else PairAt(s[1..]) + 1
  }

  /** No two colons in a row. */
  predicate Single(s: string) {
    |s| < 2 || (!(s[0] == ':' && s[1] == ':') && Single(s[1..]))
  }

  function Pieces(s: string): seq<string> {
    if s == "" then [] else Split(s, ':')
  }

  function Zeros(n: nat): (z: seq<nat>)
    ensures |z| == n && forall i | 0 <= i < n :: z[i] == 0
  {
    seq(n, _ => 0)
  }

  /** The groups on both sides of "::", which stands for one or more zero groups. */
  function Expanded(head: seq<string>, tail: seq<string>): Option<seq<nat>> {
    if Hextets(head) && Hextets(tail) && |head| + |tail| < 8 then
      Some(GroupBytes(head) + (Zeros(2 * (8 - |head| - |tail|)) + GroupBytes(tail)))
    else None
  }

  function V6(s: string): Option<seq<nat>> {
    if s == "" then None
    else
      var d := PairAt(s);
      if d == |s| then
        var g := Split(s, ':');
        if |g| == 8 && Hextets(g) then Some(GroupBytes(g)) else None
      else
        var head, tail := Pieces(s[..d]), Pieces(s[d + 2..]);
        if Single(s[d + 2..]) then Expanded(head, tail) else None
  }

  method Ipv6Bytes(s: string) returns (r: Option<seq<nat>>)
    ensures r == V6(s)
  {
    hide GroupBytes;
    hide Single;
    hide Expanded;
    hide IsHextet;
    if s == "" {
      return None;
    }
    var d := PairAt(s);
    if d < |s| {
      PairIff(s[d + 2..]);
    }
    if d < |s| && PairAt(s[d + 2..]) < |s[d + 2..]| {
      return None;
    }
    if d < |s| {
      var head, tail := [], [];
      if |s[..d]| > 0 {
        head := Split(s[..d], ':');
      }
      if |s[d + 2..]| > 0 {
        tail := Split(s[d + 2..], ':');
      }
      r := Expand(head, tail);
      return;
    }
    var g := Split(s, ':');
    if |g| != 8 {
      return None;
    }
    r := HextetsToBytes(g);
  }

  method Expand(head: seq<string>, tail: seq<string>) returns (r: Option<seq<nat>>)
    ensures r == Expanded(head, tail)
  {
    hide GroupBytes;
    hide Hextets;
    var hb := HextetsToBytes(head);
    if hb.None? {
      return None;
    }
    var tb := HextetsToBytes(tail);
    if tb.None? {
      return None;
    }
    var missing := 8 - |head| - |tail|;
    if missing < 1 {
      return None;
    }
    var out := hb.value;
    for i := 0 to missing
      invariant out == hb.value + Zeros(2 * i)
    {
      out := out + [0];
      out := out + [0];
    }
    var z := out;
    for i := 0 to |tb.value|
      invariant out == z + tb.value[..i]
    {
      out := out + [tb.value[i]];
    }
    assert out == hb.value + (Zeros(2 * missing) + tb.value);
    return if |out| == 16 then Some(out) else None;
  }

  lemma {:induction false} PairIff(s: string)
    ensures PairAt(s) == |s| <==> Single(s)
  {
    if s != "" {
      PairIff(s[1..]);
    }
  }

  /** The text is eight groups between single colons. */
  predicate Plain(s: string, g: seq<string>, addr: seq<nat>) {
    |g| == 8 && Hextets(g) && s == Join(g, ':') && addr == GroupBytes(g)
  }

  /** One "::" stands for one or more zero groups. */
  predicate Compressed(s: string, h: seq<string>, t: seq<string>, addr: seq<nat>) {
    s == Join(h, ':') + ("::" + Join(t, ':')) && Expanded(h, t) == Some(addr)
  }

  lemma {:induction false} SingleAppend(a: string, b: string)
    requires a != "" && Free(a, ':') && b != "" && b[0] != ':' && Single(b)
    ensures Single(a + [':'] + b)
  {
    var s := a + [':'] + b;
    if |a| == 1 {
      assert s[1..] == [':'] + b && s[1..][1..] == b;
    } else {
      assert s[1..] == a[1..] + [':'] + b;
      SingleAppend(a[1..], b);
    }
  }

  lemma {:induction false} FreeIsSingle(a: string)
    requires Free(a, ':')
    ensures Single(a)
  {
    if a != "" {
      FreeIsSingle(a[1..]);
    }
  }

  lemma HextetIsFree(g: string)
    requires IsHextet(g)
    ensures Free(g, ':')
  {
  }

  lemma {:induction false} JoinIsSingle(g: seq<string>)
    requires Hextets(g)
    ensures var s := Join(g, ':');
            Single(s) && (s == "" <==> g == []) && (g != [] ==> s[0] != ':' && s[|s| - 1] != ':')
  {
    hide Single;
    hide IsHextet;
    if |g| == 0 {
      FreeIsSingle("");
    } else {
      assert IsHextet(g[0]);
      HextetIsFree(g[0]);
      FirstIsNoColon(g[0]);
      if |g| == 1 {
        FreeIsSingle(g[0]);
      } else {
        JoinIsSingle(g[1..]);
        SingleAppend(g[0], Join(g[1..], ':'));
      }
    }
  }

  lemma FirstIsNoColon(g: string)
    requires IsHextet(g)
    ensures g != "" && g[0] != ':' && g[|g| - 1] != ':'
  {
  }

  lemma {:induction false} FirstPairIs(a: string, b: string)
    requires Single(a) && (a != "" ==> a[|a| - 1] != ':')
    ensures PairAt(a + ("::" + b)) == |a|
  {
    var s := a + ("::" + b);
    if a != "" {
      assert s[1..] == a[1..] + ("::" + b);
      assert |a| > 1 ==> s[1] == a[1];
      FirstPairIs(a[1..], b);
    }
  }

  lemma PiecesOfJoin(g: seq<string>)
    requires Hextets(g)
    ensures Pieces(Join(g, ':')) == g
  {
    if g != [] {
      forall i | 0 <= i < |g| ensures Free(g[i], ':') {
        HextetIsFree(g[i]);
      }
      SplitJoin(g, ':');
      JoinIsSingle(g);
    }
  }

  lemma PlainParses(s: string, g: seq<string>, addr: seq<nat>)
    requires Plain(s, g, addr)
    ensures V6(s) == Some(addr)
  {
    JoinIsSingle(g);
    PairIff(s);
    PiecesOfJoin(g);
  }

  lemma CompressedParses(s: string, h: seq<string>, t: seq<string>, addr: seq<nat>)
    requires Compressed(s, h, t, addr)
    ensures V6(s) == Some(addr)
  {
    hide GroupBytes;
    hide Join;
    hide Single;
    hide Pieces;
    hide PairAt;
    hide IsHextet;
    JoinIsSingle(h);
    JoinIsSingle(t);
    var a, b := Join(h, ':'), Join(t, ':');
    FirstPairIs(a, b);
    assert s[..|a|] == a && s[|a| + 2..] == b;
    PiecesOfJoin(h);
    PiecesOfJoin(t);
  }

  lemma PlainOnly(s: string)
    requires V6(s).Some? && PairAt(s) == |s|
    ensures Plain(s, Split(s, ':'), V6(s).value)
  {
    JoinSplit(s, ':');
  }

  lemma CompressedOnly(s: string)
    requires V6(s).Some? && PairAt(s) < |s|
    ensures var d := PairAt(s); Compressed(s, Pieces(s[..d]), Pieces(s[d + 2..]), V6(s).value)
  {
    hide Expanded;
    hide Join;
    hide Single;
    hide Pieces;
    var d := PairAt(s);
    JoinPieces(s[..d]);
    JoinPieces(s[d + 2..]);
    hide PairAt;
    CutAt(s, d);
  }

  lemma CutAt(s: string, d: nat)
    requires d + 2 <= |s| && s[d] == ':' && s[d + 1] == ':'
    ensures s == s[..d] + ("::" + s[d + 2..])
  {
  }

  /** Exactly these texts are accepted, and for exactly these bytes. */
  lemma V6Accepts(s: string, addr: seq<nat>)
    ensures V6(s) == Some(addr) <==>
            || (exists g :: Plain(s, g, addr))
            || (exists h, t :: Compressed(s, h, t, addr))
  {
    hide V6;
    hide Plain;
    hide Compressed;
    if V6(s) == Some(addr) {
      if PairAt(s) == |s| {
        PlainOnly(s);
      } else {
        CompressedOnly(s);
      }
    }
    forall g | Plain(s, g, addr) ensures V6(s) == Some(addr) {
      PlainParses(s, g, addr);
    }
    forall h, t | Compressed(s, h, t, addr) ensures V6(s) == Some(addr) {
      CompressedParses(s, h, t, addr);
    }
  }

  lemma JoinPieces(s: string)
    ensures Join(Pieces(s), ':') == s
  {
    if s != "" {
      JoinSplit(s, ':');
    }
  }

  /** `g` spells the eight 16-bit groups of an address, in any case and with any leading
      zeros that fit. */
  predicate Spells(g: seq<string>, addr: seq<nat>) {
    && |g| == 8 && |addr| == 16 && Bytes(addr) && Hextets(g)
    && forall i | 0 <= i < 8 :: HexVal(g[i]) == 256 * addr[2 * i] + addr[2 * i + 1]
  }

  /** Every address comes back from its eight groups, and from each text that compresses
      one run of one or more zero groups. */
  lemma AddressRoundTrip(g: seq<string>, addr: seq<nat>, a: nat, b: nat)
    requires Spells(g, addr) && a < b <= 8
    requires forall i | 2 * a <= i < 2 * b :: addr[i] == 0
    ensures V6(Join(g, ':')) == Some(addr)
    ensures V6(Join(g[..a], ':') + ("::" + Join(g[b..], ':'))) == Some(addr)
  {
    hide V6;
    hide Join;
    hide GroupBytes;
    hide HexVal;
    hide IsHextet;
    SpelledBytes(g, addr, 0, 8);
    assert g[0..8] == g;
    PlainParses(Join(g, ':'), g, addr);
    var h, t := g[..a], g[b..];
    SpelledBytes(g, addr, 0, a);
    SpelledBytes(g, addr, b, 8);
    assert g[b..8] == g[b..];
    assert addr == addr[..2 * a] + (addr[2 * a..2 * b] + addr[2 * b..]);
    assert addr[2 * a..2 * b] == Zeros(2 * (8 - |h| - |t|));
    CompressedParses(Join(h, ':') + ("::" + Join(t, ':')), h, t, addr);
  }

  lemma SpelledBytes(g: seq<string>, addr: seq<nat>, a: nat, b: nat)
    requires Spells(g, addr) && a <= b <= 8
    ensures GroupBytes(g[a..b]) == addr[2 * a..2 * b]
  {
    hide GroupBytes;
    hide HexVal;
    hide IsHextet;
    var x := g[a..b];
    forall i | a <= i < b
      ensures GroupBytes(x)[2 * (i - a)] == addr[2 * i] && GroupBytes(x)[2 * (i - a) + 1] == addr[2 * i + 1]
    {
      GroupBytesAt(x, i - a);
      assert x[i - a] == g[i];
    }
    forall k | 0 <= k < 2 * (b - a) ensures GroupBytes(x)[k] == addr[2 * a + k] {
      var i := a + k / 2;
      assert GroupBytes(x)[2 * (i - a)] == addr[2 * i];
      assert k == 2 * (i - a) || k == 2 * (i - a) + 1;
    }
  }

  // ----- prefixes

  function AddrPart(p: string): string {
    var parts := Split(p, '/');
    if |parts| == 2 && parts[0] != "" && parts[1] != "" && AllDigits(parts[1]) then parts[0] else p
  }

  function LenPart(p: string): Option<nat> {
    var parts := Split(p, '/');
    if |parts| == 2 && parts[0] != "" && parts[1] != "" && AllDigits(parts[1]) then Some(Val(parts[1])) else None
  }

  function Parse(p: string): Option<Prefix> {
    if p == "" then None
    else
      var a := AddrPart(p);
      var v6 := ':' in a;
      var bytes := if v6 then V6(a) else if '.' in a then V4(a) else None;
      var len := if LenPart(p).Some? then LenPart(p).value else Width(v6);
      if bytes.None? || len > Width(v6) then None else Some(Prefix(v6, bytes.value, len))
  }

  method ParsePrefix(p: string) returns (r: Option<Prefix>)
    ensures r == Parse(p)
  {
    hide V4;
    hide V6;
    if p == "" {
      return None;
    }
    var m := Split(p, '/');
    var addr := p;
    var len := -1;
    if |m| == 2 && m[0] != "" && m[1] != "" && AllDigits(m[1]) {
      addr := m[0];
      len := Val(m[1]);
    }
    var bytes := None;
    var v6 := false;
    if ':' in addr {
      v6 := true;
      bytes := Ipv6Bytes(addr);
    } else if '.' in addr {
      bytes := Ipv4Bytes(addr);
    }
    if bytes.None? {
      return None;
    }
    if len < 0 {
      len := Width(v6);
    }
    if len > Width(v6) {
      return None;
    }
    return Some(Prefix(v6, bytes.value, len));
  }

  lemma {:induction false} GroupBytesAreBytes(groups: seq<string>)
    requires Hextets(groups)
    ensures Bytes(GroupBytes(groups))
  {
    forall k | 0 <= k < 2 * |groups| ensures GroupBytes(groups)[k] < 256 {
      GroupBytesAt(groups, k / 2);
    }
  }

  lemma ExpandedIsWellFormed(head: seq<string>, tail: seq<string>)
    requires Expanded(head, tail).Some?
    ensures |Expanded(head, tail).value| == 16 && Bytes(Expanded(head, tail).value)
  {
    GroupBytesAreBytes(head);
    GroupBytesAreBytes(tail);
  }

  lemma V6IsWellFormed(s: string)
    requires V6(s).Some?
    ensures |V6(s).value| == 16 && Bytes(V6(s).value)
  {
    hide Expanded;
    hide GroupBytes;
    hide Bytes;
    hide Pieces;
    hide Single;
    var d := PairAt(s);
    if d == |s| {
      GroupBytesAreBytes(Split(s, ':'));
    } else {
      ExpandedIsWellFormed(Pieces(s[..d]), Pieces(s[d + 2..]));
    }
  }

  lemma ParseIsWellFormed(p: string)
    requires Parse(p).Some?
    ensures WellFormed(Parse(p).value)
  {
    hide V6;
    var a := AddrPart(p);
    if ':' in a {
      V6IsWellFormed(a);
    }
  }

  // ----- texts of prefixes

  lemma {:induction false} DecFree(n: nat, c: char)
    requires !IsDigit(c)
    ensures Free(Dec(n), c)
  {
  }

  /** A bare address is its own host route; "/len" narrows it, up to the width of the
      family. */
  lemma LengthIsRead(a: string, len: nat)
    requires Free(a, '/')
    ensures Parse(a).Some? ==> Parse(a).value.len == Width(Parse(a).value.v6)
    ensures Parse(a + ['/'] + Dec(len)) ==
            match Parse(a)
            case None => None
            case Some(p) => if len <= Width(p.v6) then Some(p.(len := len)) else None
  {
    hide V4;
    hide V6;
    hide Split;
    hide Free;
    hide AddrPart;
    hide LenPart;
    if a == "" {
      assert a + ['/'] + Dec(len) == ['/'] + Dec(len);
      NoAddress(len);
    } else {
      PartsOf(a, len);
    }
  }

  lemma NoAddress(len: nat)
    ensures Parse(['/'] + Dec(len)) == None
  {
    var p := ['/'] + Dec(len);
    DecFree(len, '/');
    DecFree(len, ':');
    DecFree(len, '.');
    assert Split(p, '/') == [""] + Split(Dec(len), '/') by {
      assert p[1..] == Dec(len);
    }
    assert AddrPart(p) == p;
    assert forall i | 1 <= i < |p| :: p[i] == Dec(len)[i - 1];
    hide Dec;
    assert ':' !in p && '.' !in p;
  }

  lemma PartsOf(a: string, len: nat)
    requires Free(a, '/') && a != ""
    ensures AddrPart(a) == a && LenPart(a) == None
    ensures AddrPart(a + ['/'] + Dec(len)) == a && LenPart(a + ['/'] + Dec(len)) == Some(len)
  {
    hide Split;
    hide Free;
    hide Val;
    SplitFree(a, '/');
    DecFree(len, '/');
    SplitFree(Dec(len), '/');
    SplitFirst(a, '/', Dec(len));
    ValDec(len);
  }

  // ----- what a text of a prefix is, written out

  /** Four numbers of one to three digits with dots between them. */
  ghost predicate DottedQuad(s: string, t: seq<string>, addr: seq<nat>) {
    && |t| == 4 && s == t[0] + "." + t[1] + "." + t[2] + "." + t[3]
    && |addr| == 4
    && forall i | 0 <= i < 4 :: 1 <= |t[i]| <= 3 && AllDigits(t[i]) && Val(t[i]) == addr[i] <= 255
  }

  /** Groups of one to four hexadecimal digits that spell these bytes, two a group. */
  ghost predicate GroupsSpell(g: seq<string>, addr: seq<nat>) {
    && |addr| == 2 * |g|
    && (forall i | 0 <= i < |addr| :: addr[i] <= 255)
    && forall i | 0 <= i < |g| ::
         1 <= |g[i]| <= 4 && AllHex(g[i]) && HexVal(g[i]) == 256 * addr[2 * i] + addr[2 * i + 1]
  }

  /** Eight groups with colons between them, or fewer on both sides of a double colon that
      stands for the zero bytes in between. */
  ghost predicate ColonForm(s: string, g: seq<string>, h: seq<string>, addr: seq<nat>) {
    && |addr| == 16
    && ((s == Join(g, ':') && |g| == 8 && GroupsSpell(g, addr))
        || (s == Join(g, ':') + "::" + Join(h, ':') && |g| + |h| < 8
            && GroupsSpell(g, addr[..2 * |g|]) && GroupsSpell(h, addr[16 - 2 * |h|..])
            && forall i | 2 * |g| <= i < 16 - 2 * |h| :: addr[i] == 0))
  }

  ghost predicate AddressText(a: string, v6: bool, addr: seq<nat>) {
    if v6 then exists g, h :: ColonForm(a, g, h, addr) else exists t :: DottedQuad(a, t, addr)
  }

  lemma {:induction false} JoinOfFour(t: seq<string>, c: char)
    requires |t| == 4
    ensures Join(t, c) == t[0] + [c] + t[1] + [c] + t[2] + [c] + t[3]
  {
    var r := t[1..];
    assert r[1..] == t[2..] && t[2..][1..] == t[3..];
    assert Join(t[3..], c) == t[3];
    assert Join(t[2..], c) == t[2] + [c] + t[3];
    assert Join(r, c) == t[1] + [c] + (t[2] + [c] + t[3]);
  }

  lemma V4Is(s: string, addr: seq<nat>)
    ensures V4(s) == Some(addr) <==> AddressText(s, false, addr)
  {
    hide V4;
    hide Join;
    hide Val;
    V4Accepts(s, addr);
    if V4(s) == Some(addr) {
      var t: seq<string> :| |t| == 4 && (forall i | 0 <= i < 4 :: IsOctet(t[i])) && s == Join(t, '.')
                            && |addr| == 4 && forall i | 0 <= i < 4 :: addr[i] == Val(t[i]);
      JoinOfFour(t, '.');
      assert DottedQuad(s, t, addr);
    }
    forall t | DottedQuad(s, t, addr) ensures V4(s) == Some(addr) {
      JoinOfFour(t, '.');
    }
  }

  lemma GroupsSpellIff(g: seq<string>, addr: seq<nat>)
    ensures GroupsSpell(g, addr) <==> Hextets(g) && addr == GroupBytes(g)
  {
    hide HexVal;
    hide GroupBytes;
    hide AllHex;
    if Hextets(g) {
      forall i | 0 <= i < |g|
        ensures HexVal(g[i]) == 256 * GroupBytes(g)[2 * i] + GroupBytes(g)[2 * i + 1]
        ensures GroupBytes(g)[2 * i] < 256 && GroupBytes(g)[2 * i + 1] < 256
      {
        GroupBytesAt(g, i);
      }
      if GroupsSpell(g, addr) {
        forall k | 0 <= k < |addr| ensures addr[k] == GroupBytes(g)[k] {
          var i := k / 2;
          SameBytes(addr[2 * i], addr[2 * i + 1], GroupBytes(g)[2 * i], GroupBytes(g)[2 * i + 1]);
          assert k == 2 * i || k == 2 * i + 1;
        }
      }
      GroupBytesAreBytes(g);
    } else {
      var i :| 0 <= i < |g| && !IsHextet(g[i]);
    }
  }

  lemma SameBytes(a: nat, b: nat, x: nat, y: nat)
    requires 256 * a + b == 256 * x + y && b < 256 && y < 256
    ensures a == x && b == y
  {
  }

  lemma ExpandedIff(g: seq<string>, h: seq<string>, addr: seq<nat>)
    requires |g| + |h| < 8
    ensures Expanded(g, h) == Some(addr) <==>
            && |addr| == 16 && GroupsSpell(g, addr[..2 * |g|]) && GroupsSpell(h, addr[16 - 2 * |h|..])
            && forall i | 2 * |g| <= i < 16 - 2 * |h| :: addr[i] == 0
  {
    hide GroupsSpell;
    hide GroupBytes;
    hide Hextets;
    if Hextets(g) && Hextets(h) {
      var x, y := GroupBytes(g), GroupBytes(h);
      var z := Zeros(2 * (8 - |g| - |h|));
      var e := x + (z + y);
      GroupsSpellIff(g, e[..2 * |g|]);
      GroupsSpellIff(h, e[16 - 2 * |h|..]);
      if |addr| == 16 {
        GroupsSpellIff(g, addr[..2 * |g|]);
        GroupsSpellIff(h, addr[16 - 2 * |h|..]);
        if addr[..2 * |g|] == x && addr[16 - 2 * |h|..] == y
           && forall i | 2 * |g| <= i < 16 - 2 * |h| :: addr[i] == 0
        {
          assert addr[2 * |g|..16 - 2 * |h|] == z;
          assert addr == addr[..2 * |g|] + (addr[2 * |g|..16 - 2 * |h|] + addr[16 - 2 * |h|..]);
        }
      }
    } else if |addr| == 16 {
      GroupsSpellIff(g, addr[..2 * |g|]);
      GroupsSpellIff(h, addr[16 - 2 * |h|..]);
    }
  }

  lemma ColonFormIff(s: string, g: seq<string>, h: seq<string>, addr: seq<nat>)
    ensures ColonForm(s, g, h, addr) <==> Plain(s, g, addr) || Compressed(s, g, h, addr)
  {
    hide GroupsSpell;
    hide Join;
    hide GroupBytes;
    hide Hextets;
    GroupsSpellIff(g, addr);
    if |g| + |h| < 8 {
      ExpandedIff(g, h, addr);
    }
    assert Join(g, ':') + "::" + Join(h, ':') == Join(g, ':') + ("::" + Join(h, ':'));
    assert Hextets(g) && |g| == 8 ==> |GroupBytes(g)| == 16;
  }

  lemma V6Is(s: string, addr: seq<nat>)
    ensures V6(s) == Some(addr) <==> AddressText(s, true, addr)
  {
    hide V6;
    hide Plain;
    hide Compressed;
    hide ColonForm;
    V6Accepts(s, addr);
    forall g, h ensures ColonForm(s, g, h, addr) <==> Plain(s, g, addr) || Compressed(s, g, h, addr) {
      ColonFormIff(s, g, h, addr);
    }
    if g :| Plain(s, g, addr) {
      assert ColonForm(s, g, [], addr);
    }
  }

  /** A text of a prefix: an address alone, of full length, or an address, a slash and the
      decimal digits of a length that fits its family. */
  ghost predicate PrefixText(p: string, r: Prefix, a: string, d: string) {
    && AddressText(a, r.v6, r.addr)
    && (if d == "" then p == a && r.len == (if r.v6 then 128 else 32)
        else p == a + "/" + d && AllDigits(d) && Val(d) == r.len <= if r.v6 then 128 else 32)
  }

  lemma NoSlash(a: string, v6: bool, addr: seq<nat>)
    requires AddressText(a, v6, addr)
    ensures Free(a, '/') && a != "" && (v6 <==> ':' in a) && (!v6 ==> '.' in a)
  {
    if v6 {
      var g, h :| ColonForm(a, g, h, addr);
      ColonFormIsFree(a, g, h, addr);
    } else {
      var t :| DottedQuad(a, t, addr);
      assert a[|t[0]|] == '.';
      assert forall c | c in a :: c == '.' || c in t[0] || c in t[1] || c in t[2] || c in t[3];
      assert forall i | 0 <= i < |a| :: a[i] in a;
      assert forall c | IsDigit(c) || c == '.' :: c != '/' && c != ':';
    }
  }

  lemma ColonFormIsFree(a: string, g: seq<string>, h: seq<string>, addr: seq<nat>)
    requires ColonForm(a, g, h, addr)
    ensures Free(a, '/') && a != "" && ':' in a
  {
    hide HexVal;
    JoinedHex(g);
    if |g| == 8 && a == Join(g, ':') {
      assert a == g[0] + [':'] + Join(g[1..], ':');
      assert a[|g[0]|] == ':';
    } else {
      JoinedHex(h);
      assert a[|Join(g, ':')|] == ':';
    }
  }

  lemma {:induction false} JoinedHex(g: seq<string>)
    requires forall i | 0 <= i < |g| :: AllHex(g[i])
    ensures Free(Join(g, ':'), '/')
  {
    if |g| > 1 {
      JoinedHex(g[1..]);
    }
  }

  /** Exactly these texts are read, IPv4 and IPv6 alike, and as exactly these prefixes. */
  lemma ParseIs(p: string, r: Prefix)
    ensures Parse(p) == Some(r) <==> exists a, d :: PrefixText(p, r, a, d)
  {
    hide V4;
    hide V6;
    hide AddressText;
    hide Split;
    hide Val;
    if Parse(p) == Some(r) {
      V4Is(AddrPart(p), r.addr);
      V6Is(AddrPart(p), r.addr);
      var d := LenText(p);
      assert PrefixText(p, r, AddrPart(p), d);
    }
    forall a, d | PrefixText(p, r, a, d) ensures Parse(p) == Some(r) {
      NoSlash(a, r.v6, r.addr);
      V4Is(a, r.addr);
      V6Is(a, r.addr);
      SplitFree(a, '/');
      if d != "" {
        DigitsAreFree(d);
        SplitFree(d, '/');
        SplitFirst(a, '/', d);
        assert a + ['/'] + d == p;
      }
    }
  }

  lemma DigitsAreFree(d: string)
    requires AllDigits(d)
    ensures Free(d, '/')
  {
  }

  /** The digits behind the slash, if `p` is of that form. */
  lemma LenText(p: string) returns (d: string)
    ensures if d == "" then AddrPart(p) == p && LenPart(p) == None
            else p == AddrPart(p) + "/" + d && AllDigits(d) && LenPart(p) == Some(Val(d))
  {
    var parts := Split(p, '/');
    d := "";
    if |parts| == 2 && parts[0] != "" && parts[1] != "" && AllDigits(parts[1]) {
      d := parts[1];
      JoinSplit(p, '/');
      assert Join(parts, '/') == parts[0] + ['/'] + Join(parts[1..], '/');
    }
  }

  function Dotted(addr: seq<nat>): string
    requires |addr| == 4
  {
    Dec(addr[0]) + ['.'] + (Dec(addr[1]) + ['.'] + (Dec(addr[2]) + ['.'] + Dec(addr[3])))
  }

  lemma DecIsOctet(n: nat)
    requires n < 256
    ensures IsOctet(Dec(n)) && Val(Dec(n)) == n
  {
    ValDec(n);
    if n >= 10 {
      assert |Dec(n)| == |Dec(n / 10)| + 1;
      assert n >= 100 ==> |Dec(n / 10)| == |Dec(n / 10 / 10)| + 1;
    }
  }

  lemma DottedSplits(addr: seq<nat>)
    requires |addr| == 4
    ensures Split(Dotted(addr), '.') == [Dec(addr[0]), Dec(addr[1]), Dec(addr[2]), Dec(addr[3])]
  {
    DecFree(addr[0], '.');
    DecFree(addr[1], '.');
    DecFree(addr[2], '.');
    DecFree(addr[3], '.');
    hide Dec;
    hide Split;
    hide Free;
    SplitFree(Dec(addr[3]), '.');
    SplitFirst(Dec(addr[2]), '.', Dec(addr[3]));
    SplitFirst(Dec(addr[1]), '.', Dec(addr[2]) + ['.'] + Dec(addr[3]));
    SplitFirst(Dec(addr[0]), '.', Dec(addr[1]) + ['.'] + (Dec(addr[2]) + ['.'] + Dec(addr[3])));
  }

  lemma FreeDot(a: string, b: string, c: char)
    requires Free(a, c) && Free(b, c) && c != '.'
    ensures Free(a + ['.'] + b, c)
  {
  }

  lemma DottedIsFree(addr: seq<nat>, c: char)
    requires |addr| == 4 && c != '.' && !IsDigit(c)
    ensures Free(Dotted(addr), c) && '.' in Dotted(addr)
  {
    DecFree(addr[0], c);
    DecFree(addr[1], c);
    DecFree(addr[2], c);
    DecFree(addr[3], c);
    FreeDot(Dec(addr[2]), Dec(addr[3]), c);
    FreeDot(Dec(addr[1]), Dec(addr[2]) + ['.'] + Dec(addr[3]), c);
    FreeDot(Dec(addr[0]), Dec(addr[1]) + ['.'] + (Dec(addr[2]) + ['.'] + Dec(addr[3])), c);
    assert Dotted(addr)[|Dec(addr[0])|] == '.';
  }

  lemma V4OfDotted(addr: seq<nat>)
    requires |addr| == 4 && Bytes(addr)
    ensures V4(Dotted(addr)) == Some(addr)
  {
    DottedSplits(addr);
    hide Dotted;
    hide Dec;
    hide Split;
    hide IsOctet;
    DecIsOctet(addr[0]);
    DecIsOctet(addr[1]);
    DecIsOctet(addr[2]);
    DecIsOctet(addr[3]);
    assert V4(Dotted(addr)).value == addr;
  }

  /** Every IPv4 address and length comes back from its text. */
  lemma V4RoundTrip(addr: seq<nat>, len: nat)
    requires |addr| == 4 && Bytes(addr) && len <= 32
    ensures Parse(Dotted(addr) + ['/'] + Dec(len)) == Some(Prefix(false, addr, len))
  {
    V4OfDotted(addr);
    DottedIsFree(addr, '/');
    DottedIsFree(addr, ':');
    SplitFree(Dotted(addr), '/');
    hide Dotted;
    hide Dec;
    hide V4;
    hide V6;
    assert Parse(Dotted(addr)) == Some(Prefix(false, addr, 32));
    LengthIsRead(Dotted(addr), len);
  }

  /** Every IPv6 address and length comes back from each of its texts: eight groups, or one
      run of zero groups compressed. */
  lemma V6RoundTrip(g: seq<string>, addr: seq<nat>, a: nat, b: nat, len: nat)
    requires Spells(g, addr) && a < b <= 8 && len <= 128
    requires forall i | 2 * a <= i < 2 * b :: addr[i] == 0
    ensures Parse(Join(g, ':') + ['/'] + Dec(len)) == Some(Prefix(true, addr, len))
    ensures Parse(Join(g[..a], ':') + ("::" + Join(g[b..], ':')) + ['/'] + Dec(len)) == Some(Prefix(true, addr, len))
  {
    hide HexVal;
    AddressRoundTrip(g, addr, a, b);
    V6WithLength(Join(g, ':'), addr, len);
    V6WithLength(Join(g[..a], ':') + ("::" + Join(g[b..], ':')), addr, len);
  }

  lemma V6WithLength(s: string, addr: seq<nat>, len: nat)
    requires V6(s) == Some(addr) && len <= 128
    ensures Parse(s + ['/'] + Dec(len)) == Some(Prefix(true, addr, len))
  {
    hide V4;
    hide V6;
    hide Dec;
    V6Is(s, addr);
    NoSlash(s, true, addr);
    SplitFree(s, '/');
    assert Parse(s) == Some(Prefix(true, addr, 128));
    LengthIsRead(s, len);
  }
}
