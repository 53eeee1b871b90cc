/** What rpcd-mod-bird's config editor sees in one line of a BIRD configuration: block
    headers, braces and `cost` statements, and what changing the number does to them. */
module BirdLines {
  import opened Text
  import opened Wrappers

  // ----- what the editor sees in one line

  predicate Blank(c: char) {
    c == ' ' || c == '\t'
  }

  predicate AllBlank(s: string) {
    forall i | 0 <= i < |s| :: Blank(s[i])
  }

  /** The blanks `s` starts with, and what follows them. */
  function Indent(s: string): string {
    if s != "" && Blank(s[0]) then [s[0]] + Indent(s[1..]) else ""
  }

  function AfterBlanks(s: string): string {
    if s != "" && Blank(s[0]) then AfterBlanks(s[1..]) else s
  }

  /** The digits `s` starts with, and what follows them. */
  function Digits(s: string): string {
    if s != "" && IsDigit(s[0]) then [s[0]] + Digits(s[1..]) else ""
  }

  function AfterDigits(s: string): string {
    if s != "" && IsDigit(s[0]) then AfterDigits(s[1..]) else s
  }

  /** The line opens the block of `iface`: `interface "<iface>"...`. */
  predicate IsHeader(line: string, iface: string) {
    var l := AfterBlanks(line);
    "interface " <= l && "\"" + iface + "\"" <= Trim(l[10..])
  }

  predicate HasOpen(line: string) {
    '{' in line
  }

  function Count(s: string, c: char): nat {
    if s == "" then 0 else Count(s[..|s| - 1], c) + if s[|s| - 1] == c then 1 else 0
  }

  method CountChar(s: string, c: char) returns (n: nat)
    ensures n == Count(s, c)
  {
    n := 0;
    for i := 0 to |s|
      invariant n == Count(s[..i], c)
    {
      assert s[..i + 1][..i] == s[..i];
      if s[i] == c {
        n := n + 1;
      }
    }
    assert s[..|s|] == s;
  }

  function BraceDelta(line: string): int {
    Count(line, '{') - Count(line, '}')
  }

  /** A `cost <number>;` line around its number. */
  datatype CostParts = CostParts(pre: string, digits: string, post: string)

  function ParseCost(line: string): Option<CostParts> {
    var l := AfterBlanks(line);
    if !("cost" <= l) then None
    else
      var m := l[4..];
      var n := AfterBlanks(m);
      var p := AfterDigits(n);
      if Indent(m) != "" && Digits(n) != "" && EndsCost(p)
      then Some(CostParts(Indent(line) + ("cost" + Indent(m)), Digits(n), p))
      else None
  }

  /** What may follow the number. */
  predicate EndsCost(p: string) {
    ";" <= AfterBlanks(p)
  }

  predicate IsCost(line: string) {
    ParseCost(line).Some?
  }

  function CostIn(line: string): nat
    requires IsCost(line)
  {
    DigitsAreDigits(line);
    Val(ParseCost(line).value.digits)
  }

  function SetCost(line: string, cost: nat): string
    requires IsCost(line)
  {
    var p := ParseCost(line).value;
    p.pre + (Dec(cost) + p.post)
  }

  function NewCost(open: string, cost: nat): string {
    (Indent(open) + "\t") + ("cost" + (" " + (Dec(cost) + ";")))
  }

  // ----- facts about one line

  lemma {:induction false} BlanksOf(w: string, s: string)
    requires AllBlank(w) && (s != "" ==> !Blank(s[0]))
    ensures Indent(w + s) == w && AfterBlanks(w + s) == s
  {
    if w == "" {
      assert w + s == s;
    } else {
      assert (w + s)[1..] == w[1..] + s;
      BlanksOf(w[1..], s);
      assert w == [w[0]] + w[1..];
    }
  }

  lemma {:induction false} DigitsOf(d: string, s: string)
    requires AllDigits(d) && (s != "" ==> !IsDigit(s[0]))
    ensures Digits(d + s) == d && AfterDigits(d + s) == s
  {
    if d == "" {
      assert d + s == s;
    } else {
      assert (d + s)[1..] == d[1..] + s;
      DigitsOf(d[1..], s);
      assert d == [d[0]] + d[1..];
    }
  }

  lemma {:induction false} BlanksSplit(s: string)
    ensures s == Indent(s) + AfterBlanks(s) && AllBlank(Indent(s))
  {
    if s != "" && Blank(s[0]) {
      BlanksSplit(s[1..]);
      assert s == [s[0]] + s[1..];
    }
  }

  lemma {:induction false} DigitsSplit(s: string)
    ensures s == Digits(s) + AfterDigits(s) && AllDigits(Digits(s))
  {
    if s != "" && IsDigit(s[0]) {
      DigitsSplit(s[1..]);
      assert s == [s[0]] + s[1..];
    }
  }

  lemma DigitsAreDigits(line: string)
    requires IsCost(line)
    ensures AllDigits(ParseCost(line).value.digits)
  {
    DigitsSplit(AfterBlanks(AfterBlanks(line)[4..]));
  }

  lemma EndIsNoDigit(p: string)
    requires EndsCost(p)
    ensures p != "" && !IsDigit(p[0])
  {
    BlanksSplit(p);
    assert Indent(p) == "" ==> p[0] == ';';
    assert Indent(p) != "" ==> p[0] == Indent(p)[0];
  }

  /** The shape of a cost line, piece by piece. */
  ghost predicate CostForm(line: string, w: string, v: string, d: string, p: string) {
    && AllBlank(w) && AllBlank(v) && v != "" && AllDigits(d) && d != "" && EndsCost(p)
    && line == w + ("cost" + (v + (d + p)))
  }

  lemma Reassociate(a: string, b: string, c: string, d: string)
    ensures (a + (b + c)) + d == a + (b + (c + d))
  {
  }

  lemma ParseCostOf(line: string, w: string, v: string, d: string, p: string)
    requires CostForm(line, w, v, d, p)
    ensures ParseCost(line) == Some(CostParts(w + ("cost" + v), d, p))
  {
    var l := "cost" + (v + (d + p));
    BlanksOf(w, l);
    assert l[4..] == v + (d + p);
    BlanksOf(v, d + p);
    EndIsNoDigit(p);
    DigitsOf(d, p);
  }

  lemma PrefixCut(p: string, s: string)
    requires p <= s
    ensures s == p + s[|p|..]
  {
  }

  lemma CostPieces(line: string) returns (w: string, v: string, d: string, p: string)
    requires IsCost(line)
    ensures CostForm(line, w, v, d, p)
    ensures ParseCost(line) == Some(CostParts(w + ("cost" + v), d, p))
  {
    var l := AfterBlanks(line);
    var m := l[4..];
    var n := AfterBlanks(m);
    w, v, d, p := Indent(line), Indent(m), Digits(n), AfterDigits(n);
    BlanksSplit(line);
    PrefixCut("cost", l);
    BlanksSplit(m);
    DigitsSplit(n);
  }

  lemma SetCostParts(line: string, cost: nat)
    requires IsCost(line)
    ensures var p := ParseCost(line).value;
            ParseCost(SetCost(line, cost)) == Some(CostParts(p.pre, Dec(cost), p.post))
  {
    var w, v, d, p := CostPieces(line);
    Reassociate(w, "cost", v, Dec(cost) + p);
    ParseCostOf(SetCost(line, cost), w, v, Dec(cost), p);
  }

  lemma {:induction false} CountParts(a: string, b: string, c: char)
    ensures Count(a + b, c) == Count(a, c) + Count(b, c)
  {
    if b == "" {
      assert a + b == a;
    } else {
      CountParts(a, b[..|b| - 1], c);
      assert (a + b)[..|a + b| - 1] == a + b[..|b| - 1];
    }
  }

  lemma {:induction false} CountIn(s: string, c: char)
    ensures Count(s, c) > 0 <==> c in s
  {
    if s != "" {
      CountIn(s[..|s| - 1], c);
      assert s == s[..|s| - 1] + [s[|s| - 1]];
    }
  }

  lemma CountMiddle(a: string, d: string, b: string, c: char)
    requires AllDigits(d) && !IsDigit(c)
    ensures Count(a + (d + b), c) == Count(a, c) + Count(b, c)
  {
    CountParts(a, d + b, c);
    CountParts(d, b, c);
    CountIn(d, c);
  }

  // ----- what a line says, written out

  /** Blanks, `interface `, white space, the quoted name, and anything after it. */
  ghost predicate HeaderForm(line: string, iface: string, w: string, v: string, rest: string) {
    && (forall i | 0 <= i < |w| :: w[i] == ' ' || w[i] == '\t')
    && (forall i | 0 <= i < |v| :: v[i] == ' ' || v[i] == '\t' || v[i] == '\r' || v[i] == '\n')
    && line == w + ("interface " + (v + ("\"" + iface + "\"" + rest)))
  }

  lemma {:induction false} TrimKeeps(v: string, q: string, rest: string)
    requires (forall i | 0 <= i < |v| :: Space(v[i])) && q != "" && !Space(q[0]) && !Space(q[|q| - 1])
    ensures q <= Trim(v + (q + rest))
    decreases |v| + |rest|
  {
    var s := v + (q + rest);
    if v != "" {
      assert s[1..] == v[1..] + (q + rest);
      TrimKeeps(v[1..], q, rest);
    } else if rest != "" && Space(s[|s| - 1]) {
      assert s[..|s| - 1] == v + (q + rest[..|rest| - 1]);
      TrimKeeps(v, q, rest[..|rest| - 1]);
    } else {
      assert s == q + rest;
    }
  }

  lemma HeaderParts(line: string, iface: string) returns (w: string, v: string, rest: string)
    requires IsHeader(line, iface)
    ensures HeaderForm(line, iface, w, v, rest)
  {
    hide Trim;
    var l, q := AfterBlanks(line), "\"" + iface + "\"";
    BlanksSplit(line);
    PrefixCut("interface ", l);
    var u;
    v, u := TrimCuts(l[10..]);
    w, rest := Indent(line), Trim(l[10..])[|q|..] + u;
    PrefixCut(q, Trim(l[10..]));
    assert Trim(l[10..]) + u == q + rest;
  }

  lemma HeaderOf(line: string, iface: string, w: string, v: string, rest: string)
    requires HeaderForm(line, iface, w, v, rest)
    ensures IsHeader(line, iface)
  {
    hide Trim;
    var q := "\"" + iface + "\"";
    var l := "interface " + (v + (q + rest));
    BlanksOf(w, l);
    assert l[10..] == v + (q + rest);
    TrimKeeps(v, q, rest);
  }

  ghost predicate Heads(line: string, iface: string) {
    exists w, v, rest :: HeaderForm(line, iface, w, v, rest)
  }

  /** Exactly these lines are headers of an interface. */
  lemma HeaderIff(line: string, iface: string)
    ensures IsHeader(line, iface) <==> Heads(line, iface)
  {
    hide IsHeader;
    hide HeaderForm;
    if IsHeader(line, iface) {
      var w, v, rest := HeaderParts(line, iface);
    }
    forall w, v, rest | HeaderForm(line, iface, w, v, rest) ensures IsHeader(line, iface) {
      HeaderOf(line, iface, w, v, rest);
    }
  }

  /** A line is the header of one interface at most. */
  lemma HeaderNamesOne(line: string, a: string, b: string)
    requires IsHeader(line, a) && IsHeader(line, b) && '"' !in a && '"' !in b
    ensures a == b
  {
    hide Trim;
    var t, x, y := Trim(AfterBlanks(line)[10..]), "\"" + a + "\"", "\"" + b + "\"";
    assert x[|a| + 1] == '"' && y[|b| + 1] == '"';
    assert forall i | 0 <= i < |a| :: x[i + 1] == a[i];
    assert forall i | 0 <= i < |b| :: y[i + 1] == b[i];
    assert forall i | 0 <= i < |a| && i < |b| :: t[i + 1] == a[i] && t[i + 1] == b[i];
  }

  lemma {:induction false} CountIs(s: string, c: char)
    ensures Count(s, c) == multiset(s)[c]
  {
    if s != "" {
      CountIs(s[..|s| - 1], c);
      assert s == s[..|s| - 1] + [s[|s| - 1]];
    }
  }

  /** The braces a line opens, less the ones it closes. */
  lemma BraceDeltaIs(line: string)
    ensures BraceDelta(line) + multiset(line)['}'] == multiset(line)['{']
  {
    CountIs(line, '{');
    CountIs(line, '}');
  }

  /** Blanks, `cost`, at least one blank, a number, blanks, a semicolon, and anything. */
  ghost predicate CostLine(line: string, w: string, v: string, d: string, u: string, rest: string) {
    && (forall i | 0 <= i < |w| :: w[i] == ' ' || w[i] == '\t')
    && (forall i | 0 <= i < |v| :: v[i] == ' ' || v[i] == '\t') && v != ""
    && (forall i | 0 <= i < |d| :: '0' <= d[i] <= '9') && d != ""
    && (forall i | 0 <= i < |u| :: u[i] == ' ' || u[i] == '\t')
    && line == w + ("cost" + (v + (d + (u + (";" + rest)))))
  }

  lemma CostLineParts(line: string) returns (w: string, v: string, d: string, u: string, rest: string)
    requires IsCost(line)
    ensures CostLine(line, w, v, d, u, rest)
    ensures ParseCost(line) == Some(CostParts(w + ("cost" + v), d, u + (";" + rest)))
  {
    var p;
    w, v, d, p := CostPieces(line);
    BlanksSplit(p);
    PrefixCut(";", AfterBlanks(p));
    u, rest := Indent(p), AfterBlanks(p)[1..];
  }

  lemma CostLineOf(line: string, w: string, v: string, d: string, u: string, rest: string)
    requires CostLine(line, w, v, d, u, rest)
    ensures IsCost(line)
  {
    var p := u + (";" + rest);
    BlanksOf(u, ";" + rest);
    assert ";" <= ";" + rest;
    ParseCostOf(line, w, v, d, p);
  }

  /** Exactly these lines are cost lines. */
  lemma CostIff(line: string)
    ensures IsCost(line) <==> exists w, v, d, u, rest :: CostLine(line, w, v, d, u, rest)
  {
    hide IsCost;
    hide CostLine;
    if IsCost(line) {
      var w, v, d, u, rest := CostLineParts(line);
    }
    forall w, v, d, u, rest | CostLine(line, w, v, d, u, rest) ensures IsCost(line) {
      CostLineOf(line, w, v, d, u, rest);
    }
  }

  /** Two lines the editor cannot tell apart, except for the cost itself. */
  ghost predicate SameShape(a: string, b: string) {
    && (forall iface :: IsHeader(a, iface) == IsHeader(b, iface))
    && HasOpen(a) == HasOpen(b)
    && BraceDelta(a) == BraceDelta(b)
    && IsCost(a) == IsCost(b)
  }

  lemma CostIsNoHeader(line: string, iface: string)
    requires IsCost(line)
    ensures !IsHeader(line, iface)
  {
    assert AfterBlanks(line)[0] == 'c';
  }

  lemma SetCostCounts(line: string, cost: nat, c: char)
    requires IsCost(line) && !IsDigit(c)
    ensures Count(line, c) == Count(SetCost(line, cost), c)
    ensures c in line <==> c in SetCost(line, cost)
  {
    var w, v, d, p := CostPieces(line);
    var pre := w + ("cost" + v);
    Reassociate(w, "cost", v, d + p);
    CountMiddle(pre, d, p, c);
    CountMiddle(pre, Dec(cost), p, c);
    CountIn(line, c);
    CountIn(SetCost(line, cost), c);
  }

  lemma SetCostShape(line: string, cost: nat)
    requires IsCost(line)
    ensures SameShape(line, SetCost(line, cost))
    ensures CostIn(SetCost(line, cost)) == cost
  {
    var t := SetCost(line, cost);
    SetCostParts(line, cost);
    forall iface ensures IsHeader(line, iface) == IsHeader(t, iface) {
      CostIsNoHeader(line, iface);
      CostIsNoHeader(t, iface);
    }
    SetCostCounts(line, cost, '{');
    SetCostCounts(line, cost, '}');
    ValDec(cost);
  }

  lemma SetCostTwice(line: string, first: nat, second: nat)
    requires IsCost(line)
    ensures IsCost(SetCost(line, first))
    ensures SetCost(SetCost(line, first), second) == SetCost(line, second)
  {
    SetCostParts(line, first);
  }

  /** An inserted line is a cost line and otherwise neutral. */
  predicate Neutral(t: string) {
    IsCost(t) && !HasOpen(t) && BraceDelta(t) == 0
  }

  lemma NewCostCounts(open: string, cost: nat, c: char)
    requires c == '{' || c == '}'
    ensures c !in NewCost(open, cost)
  {
    var t := NewCost(open, cost);
    BlanksSplit(open);
    forall i | 0 <= i < |t| ensures t[i] != c {
      assert i < |Indent(open)| ==> Blank(Indent(open)[i]);
      var j := i - |Indent(open)| - 6;
      assert 0 <= j < |Dec(cost)| ==> IsDigit(Dec(cost)[j]);
    }
  }

  lemma NewCostForm(open: string, cost: nat)
    ensures CostForm(NewCost(open, cost), Indent(open) + "\t", " ", Dec(cost), ";")
  {
    BlanksSplit(open);
  }

  lemma NewCostShape(open: string, cost: nat)
    ensures Neutral(NewCost(open, cost)) && CostIn(NewCost(open, cost)) == cost
  {
    var t := NewCost(open, cost);
    NewCostForm(open, cost);
    ParseCostOf(t, Indent(open) + "\t", " ", Dec(cost), ";");
    NewCostCounts(open, cost, '{');
    NewCostCounts(open, cost, '}');
    CountIn(t, '{');
    CountIn(t, '}');
    ValDec(cost);
  }

  lemma NewThenSet(open: string, first: nat, second: nat)
    ensures IsCost(NewCost(open, first))
    ensures SetCost(NewCost(open, first), second) == NewCost(open, second)
  {
    NewCostForm(open, first);
    var w := Indent(open) + "\t";
    ParseCostOf(NewCost(open, first), w, " ", Dec(first), ";");
    Reassociate(w, "cost", " ", Dec(second) + ";");
  }

  /** The indentation of an inserted line does not depend on a number in the opening line. */
  lemma NewCostAfterSet(line: string, cost: nat, inserted: nat)
    requires IsCost(line)
    ensures NewCost(SetCost(line, cost), inserted) == NewCost(line, inserted)
  {
    var w, v, d, p := CostPieces(line);
    Reassociate(w, "cost", v, d + p);
    Reassociate(w, "cost", v, Dec(cost) + p);
    BlanksOf(w, "cost" + (v + (d + p)));
    BlanksOf(w, "cost" + (v + (Dec(cost) + p)));
  }
}
