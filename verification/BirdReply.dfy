/** rpcd-mod-bird's side of BIRD's line protocol: when a reply is over, the code it ends
    with and its text. */
module BirdReply {
  import opened Text

  predicate Code4(line: string) {
    |line| >= 4 && AllDigits(line[..4])
  }

  /** A line that ends a reply: 0xxx, 8xxx or 9xxx, alone or before a space. */
  predicate IsStatus(line: string) {
    && Code4(line)
    && (line[0] == '0' || line[0] == '8' || line[0] == '9')
    && (|line| == 4 || line[4] == ' ')
  }

  predicate IsCoded(line: string) {
    Code4(line) && |line| > 4 && (line[4] == ' ' || line[4] == '-')
  }

  /** Position of the last `c`, or -1. */
  function LastIndex(s: string, c: char): (i: int)
    ensures -1 <= i < |s| && (i >= 0 ==> s[i] == c) && Free(s[i + 1..], c)
  {
    if s == "" then -1
    else if s[|s| - 1] == c then |s| - 1
    else LastIndex(s[..|s| - 1], c)
  }

  /** The last complete line received so far ends a reply. */
  predicate ReplyComplete(data: string) {
    var nl := LastIndex(data, '\n');
    nl >= 0 && IsStatus(data[LastIndex(data[..nl], '\n') + 1..nl])
  }

  function DropNewlines(s: string): string {
    if s != "" && s[|s| - 1] == '\n' then DropNewlines(s[..|s| - 1]) else s
  }

  predicate EndsInCode(line: string) {
    Code4(line) && (|line| == 4 || line[4] == ' ' || line[4] == '\t')
  }

  function CodeOf(line: string): nat {
    if EndsInCode(line) then Val(line[..4]) else 0
  }

  /** The number the last line starts with, or 0 when it is no status line. */
  function ReplyCode(data: string): nat {
    var s := DropNewlines(data);
    CodeOf(s[LastIndex(s, '\n') + 1..])
  }

  function Strip(line: string): string {
    if IsCoded(line) then line[5..] else line
  }

  /** Non-empty lines before the first status line, without their codes. */
  function Clean(lines: seq<string>): seq<string> {
    if lines == [] then []
    else if lines[0] == "" then Clean(lines[1..])
    else if IsStatus(lines[0]) then []
    else [Strip(lines[0])] + Clean(lines[1..])
  }

  predicate Digit(c: char) {
    '0' <= c <= '9'
  }

  /** A code and its separator are cut off; a line without them is kept as it is. */
  lemma CodeIsCut(d: string, sep: char, t: string)
    requires |d| == 4 && Digit(d[0]) && Digit(d[1]) && Digit(d[2]) && Digit(d[3]) && sep in {' ', '-'}
    ensures Strip(d + [sep] + t) == t
  {
    var line := d + [sep] + t;
    assert line[..4] == d && line[5..] == t;
  }

  lemma OthersAreKept(line: string)
    requires |line| < 5 || line[4] !in {' ', '-'} || exists i | 0 <= i < 4 :: !Digit(line[i])
    ensures Strip(line) == line
  {
    if i :| 0 <= i < 4 <= |line| && !Digit(line[i]) {
      assert line[..4][i] == line[i];
    }
  }

  /** Which lines end a reply, and with which number. */
  lemma StatusIs(line: string)
    ensures IsStatus(line) <==>
            && |line| >= 4 && line[0] in {'0', '8', '9'} && Digit(line[1]) && Digit(line[2]) && Digit(line[3])
            && (|line| > 4 ==> line[4] == ' ')
    ensures IsStatus(line) ==> CodeOf(line) == Val(line[..4])
  {
    if |line| >= 4 {
      assert line[..4] == [line[0], line[1], line[2], line[3]];
    }
  }

  /** The number a line starts with counts if nothing follows it, or white space. */
  lemma CodeIs(line: string)
    ensures CodeOf(line) == if |line| >= 4 && (forall i | 0 <= i < 4 :: Digit(line[i]))
                               && (|line| == 4 || line[4] in {' ', '\t'})
                            then Val(line[..4]) else 0
  {
    if |line| >= 4 {
      assert line[..4] == [line[0], line[1], line[2], line[3]];
      if forall i | 0 <= i < 4 :: Digit(line[i]) {
        assert Digit(line[0]) && Digit(line[1]) && Digit(line[2]) && Digit(line[3]);
      }
    }
  }

  method CleanReply(data: string) returns (res: seq<string>)
    ensures res == Clean(Split(data, '\n'))
  {
    hide IsStatus;
    hide Strip;
    res := [];
    var lines := Split(data, '\n');
    for li := 0 to |lines|
      invariant Clean(lines) == res + Clean(lines[li..])
    {
      var line := lines[li];
      assert lines[li..][1..] == lines[li + 1..];
      if line == "" {
        continue;
      }
      if IsStatus(line) {
        break;
      }
      assert Clean(lines[li..]) == [Strip(line)] + Clean(lines[li + 1..]);
      res := res + [Strip(line)];
    }
  }

  // ----- what BIRD sends

  /** A whole reply: lines that do not end it, then one that does. */
  datatype Reply = Reply(lines: seq<string>, status: string) {
    predicate Conforms() {
      && (forall i | 0 <= i < |lines| :: Free(lines[i], '\n') && !IsStatus(lines[i]))
      && IsStatus(status) && Free(status, '\n')
    }

    function Data(): string {
      Join(lines + [status, ""], '\n')
    }

    function StatusCode(): nat
      requires IsStatus(status)
    {
      Val(status[..4])
    }
  }

  lemma {:induction false} SplitSnoc(a: string, t: string, c: char)
    requires Free(t, c)
    ensures Split(a + ([c] + t), c) == Split(a, c) + [t]
  {
    var whole := a + ([c] + t);
    if a == "" {
      assert whole[1..] == t;
      SplitFree(t, c);
    } else {
      assert whole[1..] == a[1..] + ([c] + t);
      SplitSnoc(a[1..], t, c);
      var rest := Split(a[1..], c);
      assert (rest + [t])[0] == rest[0] && (rest + [t])[1..] == rest[1..] + [t];
    }
  }

  lemma SplitAtLast(s: string, c: char)
    ensures LastIndex(s, c) == -1 ==> Split(s, c) == [s]
    ensures var i := LastIndex(s, c); i >= 0 ==> Split(s, c) == Split(s[..i], c) + [s[i + 1..]]
  {
    var i := LastIndex(s, c);
    if i == -1 {
      assert s[0..] == s;
      SplitFree(s, c);
    } else {
      assert s == s[..i] + ([c] + s[i + 1..]);
      SplitSnoc(s[..i], s[i + 1..], c);
    }
  }

  lemma LastPiece(s: string, c: char)
    ensures var p := Split(s, c); s[LastIndex(s, c) + 1..] == p[|p| - 1]
  {
    hide *;
    SplitAtLast(s, c);
    var i := LastIndex(s, c);
    if i == -1 {
      assert s[i + 1..] == s;
    } else {
      LastOfSnoc(Split(s[..i], c), s[i + 1..]);
    }
  }

  lemma LastOfSnoc(parts: seq<string>, x: string)
    ensures (parts + [x])[|parts + [x]| - 1] == x
  {
  }

  lemma SliceOfPrefix(s: string, n: nat, i: nat)
    requires i <= n <= |s|
    ensures s[i..n] == s[..n][i..]
  {
  }

  /** The test looks at the last piece but one. */
  lemma CompleteBySplit(data: string)
    ensures var p := Split(data, '\n'); ReplyComplete(data) <==> |p| >= 2 && IsStatus(p[|p| - 2])
  {
    hide IsStatus;
    hide Split;
    hide LastIndex;
    hide Free;
    SplitAtLast(data, '\n');
    var nl := LastIndex(data, '\n');
    if nl >= 0 {
      var head := data[..nl];
      LastPiece(head, '\n');
      SliceOfPrefix(data, nl, LastIndex(head, '\n') + 1);
    }
  }

  /** The pieces of two texts put together: the last of one and the first of the other join. */
  function Glue(p: seq<string>, q: seq<string>): (r: seq<string>)
    requires p != [] && q != []
    ensures |r| == |p| + |q| - 1
  {
    p[..|p| - 1] + ([p[|p| - 1] + q[0]] + q[1..])
  }

  lemma GlueNothing(q: seq<string>)
    requires q != []
    ensures Glue([""], q) == q
  {
    assert "" + q[0] == q[0] && [""][..0] == [] && q == [q[0]] + q[1..];
  }

  lemma GlueAfter(p: seq<string>, q: seq<string>)
    requires p != [] && q != []
    ensures Glue([""] + p, q) == [""] + Glue(p, q)
  {
    assert ([""] + p)[..|p|] == [""] + p[..|p| - 1];
  }

  /** One more character in front of the first piece. */
  function Prepend(c: char, p: seq<string>): seq<string>
    requires p != []
  {
    [[c] + p[0]] + p[1..]
  }

  lemma GluePrepended(c: char, p: seq<string>, q: seq<string>)
    requires p != [] && q != []
    ensures Glue(Prepend(c, p), q) == Prepend(c, Glue(p, q))
  {
    if |p| == 1 {
      assert [c] + (p[0] + q[0]) == [c] + p[0] + q[0];
    } else {
      assert Prepend(c, p)[..|p| - 1] == [[c] + p[0]] + p[1..|p| - 1];
      assert Glue(p, q)[0] == p[0];
    }
  }

  lemma {:induction false} SplitConcat(a: string, b: string, c: char)
    ensures Split(a + b, c) == Glue(Split(a, c), Split(b, c))
  {
    hide Free;
    if a == "" {
      assert a + b == b;
      GlueNothing(Split(b, c));
    } else {
      assert (a + b)[1..] == a[1..] + b;
      SplitConcat(a[1..], b, c);
      hide Glue;
      if a[0] == c {
        GlueAfter(Split(a[1..], c), Split(b, c));
      } else {
        GluePrepended(a[0], Split(a[1..], c), Split(b, c));
      }
    }
  }

  /** Cutting a text short keeps all complete pieces before the cut, and a part of the next. */
  lemma SplitPrefix(s: string, k: nat, c: char)
    requires k <= |s|
    ensures var p, q := Split(s[..k], c), Split(s, c);
            |p| <= |q| && p[..|p| - 1] == q[..|p| - 1] && p[|p| - 1] <= q[|p| - 1]
    ensures k < |s| && s[|s| - 1] == c ==> |Split(s[..k], c)| < |Split(s, c)|
  {
    hide Split;
    hide Free;
    assert s == s[..k] + s[k..];
    SplitConcat(s[..k], s[k..], c);
    if k < |s| && s[|s| - 1] == c {
      var b := s[k..];
      SplitSnoc(b[..|b| - 1], "", c);
      assert b == b[..|b| - 1] + ([c] + "");
    }
  }

  lemma DataSplits(r: Reply)
    requires r.Conforms()
    ensures Split(r.Data(), '\n') == r.lines + [r.status, ""]
    ensures r.Data() != "" && r.Data()[|r.Data()| - 1] == '\n'
  {
    hide IsStatus;
    hide Split;
    hide LastIndex;
    hide Join;
    var all := r.lines + [r.status, ""];
    assert forall i | 0 <= i < |all| :: Free(all[i], '\n');
    hide Free;
    SplitJoin(all, '\n');
    LastPiece(r.Data(), '\n');
    SplitAtLast(r.Data(), '\n');
  }

  /** A reply is taken as over exactly when all of it has arrived, however it is cut. */
  lemma CompleteIffWhole(r: Reply, k: nat)
    requires r.Conforms() && k <= |r.Data()|
    ensures ReplyComplete(r.Data()[..k]) <==> k == |r.Data()|
  {
    hide IsStatus;
    hide Split;
    hide LastIndex;
    hide Join;
    hide Free;
    hide ReplyComplete;
    var d := r.Data();
    DataSplits(r);
    CompleteBySplit(d[..k]);
    SplitPrefix(d, k, '\n');
    var p, q := Split(d[..k], '\n'), Split(d, '\n');
    if k < |d| && |p| >= 2 {
      assert p[|p| - 2] == p[..|p| - 1][|p| - 2] == q[|p| - 2] == r.lines[|p| - 2];
    } else if k == |d| {
      assert d[..k] == d;
      assert q[|q| - 2] == r.status;
    }
  }

  lemma DropsOne(s: string)
    requires s != "" && s[|s| - 1] != '\n'
    ensures DropNewlines(s + "\n") == s
  {
    assert (s + "\n")[..|s|] == s;
  }

  lemma BeforeLast(s: string, lines: seq<string>, status: string)
    requires Split(s, '\n') == lines + [status, ""]
    ensures s != "" && s == s[..|s| - 1] + "\n" && Split(s[..|s| - 1], '\n') == lines + [status]
  {
    hide *;
    SplitAtLast(s, '\n');
    LastPiece(s, '\n');
    var i := LastIndex(s, '\n');
    assert |s[i + 1..]| == 0 && i == |s| - 1;
    assert Split(s[..i], '\n') == (lines + [status, ""])[..|lines| + 1];
  }

  /** A whole reply gives its status code and all its lines. */
  lemma WholeReply(r: Reply)
    requires r.Conforms()
    ensures ReplyCode(r.Data()) == r.StatusCode()
    ensures Clean(Split(r.Data(), '\n')) == Clean(r.lines)
  {
    hide Split;
    hide LastIndex;
    hide Join;
    hide Free;
    hide Clean;
    hide AllDigits;
    var d := r.Data();
    DataSplits(r);
    BeforeLast(d, r.lines, r.status);
    var s := d[..|d| - 1];
    LastPiece(s, '\n');
    var i := LastIndex(s, '\n') + 1;
    assert s[i..] == r.status;
    assert s[|s| - 1] == s[i..][|s| - 1 - i] != '\n' by { StatusEnd(r.status); }
    DropsOne(s);
    CleanStops(r.lines, r.status, [""]);
    assert r.lines + [r.status, ""] == r.lines + ([r.status] + [""]);
  }

  lemma StatusEnd(line: string)
    requires IsStatus(line) && Free(line, '\n')
    ensures line[|line| - 1] != '\n'
  {
  }

  lemma {:induction false} CleanStops(lines: seq<string>, status: string, more: seq<string>)
    requires IsStatus(status) && forall i | 0 <= i < |lines| :: !IsStatus(lines[i])
    ensures Clean(lines + ([status] + more)) == Clean(lines)
  {
    hide IsStatus;
    hide Strip;
    var all := lines + ([status] + more);
    if lines == [] {
      assert all[0] == status;
      StatusIsText(status);
    } else {
      assert all[1..] == lines[1..] + ([status] + more);
      CleanStops(lines[1..], status, more);
    }
  }

  /** Lines that end nothing are all kept, in order and without their codes. */
  lemma {:induction false} CleanKeepsLines(lines: seq<string>)
    requires forall i | 0 <= i < |lines| :: lines[i] != "" && !IsStatus(lines[i])
    ensures |Clean(lines)| == |lines| && forall i | 0 <= i < |lines| :: Clean(lines)[i] == Strip(lines[i])
  {
    hide IsStatus;
    hide Strip;
    if lines != [] {
      CleanKeepsLines(lines[1..]);
    }
  }

  /** Empty lines do not matter. */
  lemma {:induction false} BlanksGo(before: seq<string>, after: seq<string>)
    ensures Clean(before + ([""] + after)) == Clean(before + after)
  {
    hide IsStatus;
    hide Strip;
    var gap := before + ([""] + after);
    if before == [] {
      assert gap[1..] == after && before + after == after;
    } else {
      assert gap[1..] == before[1..] + ([""] + after) && (before + after)[1..] == before[1..] + after;
      BlanksGo(before[1..], after);
    }
  }

  function Newlines(n: nat): string {
    if n == 0 then "" else Newlines(n - 1) + "\n"
  }

  lemma LastGoes(a: string, b: string)
    ensures DropNewlines(a + (b + "\n")) == DropNewlines(a + b)
  {
    var t := a + (b + "\n");
    assert t[..|t| - 1] == a + b;
  }

  lemma {:induction false} NewlinesDrop(s: string, n: nat)
    ensures DropNewlines(s + Newlines(n)) == DropNewlines(s)
  {
    hide DropNewlines;
    if n == 0 {
      assert s + "" == s;
    } else {
      LastGoes(s, Newlines(n - 1));
      NewlinesDrop(s, n - 1);
    }
  }

  /** The code read is that of the last line, however many newlines end the data. */
  lemma ReplyCodeIs(head: string, line: string, n: nat)
    requires line != "" && Free(line, '\n')
    ensures ReplyCode(line + Newlines(n)) == CodeOf(line)
    ensures ReplyCode(head + (['\n'] + line) + Newlines(n)) == CodeOf(line)
  {
    var s := head + (['\n'] + line);
    NothingDrops(line);
    NothingDrops(s);
    hide *;
    NewlinesDrop(line, n);
    NewlinesDrop(s, n);
    LastLineIs(head, line);
    CodeOfLast(line + Newlines(n), line);
    CodeOfLast(s + Newlines(n), s);
  }

  lemma NothingDrops(s: string)
    requires s != "" && s[|s| - 1] != '\n'
    ensures DropNewlines(s) == s
  {
  }

  lemma CodeOfLast(data: string, s: string)
    requires DropNewlines(data) == s
    ensures ReplyCode(data) == CodeOf(s[LastIndex(s, '\n') + 1..])
  {
  }

  lemma LastLineIs(head: string, line: string)
    requires Free(line, '\n')
    ensures line[LastIndex(line, '\n') + 1..] == line
    ensures var s := head + (['\n'] + line); s[LastIndex(s, '\n') + 1..] == line
  {
    hide LastIndex;
    hide Split;
    SplitFree(line, '\n');
    LastPiece(line, '\n');
    SplitSnoc(head, line, '\n');
    LastPiece(head + (['\n'] + line), '\n');
    LastOfSnoc(Split(head, '\n'), line);
  }

  lemma StatusIsText(line: string)
    requires IsStatus(line)
    ensures line != ""
  {
  }

  // ----- what a reply that is cut short reads as

  /** The last line that is not empty. */
  function LastLine(lines: seq<string>): string {
    if lines == [] then ""
    else if lines[|lines| - 1] != "" then lines[|lines| - 1]
    else LastLine(lines[..|lines| - 1])
  }

  lemma {:induction false} CodeBySplit(data: string)
    ensures ReplyCode(data) == CodeOf(LastLine(Split(data, '\n')))
  {
    hide CodeOf;
    hide Split;
    hide Free;
    if data == "" {
      SplitNothing();
      assert LastLine([""]) == "" && DropNewlines("") == "" && LastIndex("", '\n') == -1;
    } else {
      var n := |data| - 1;
      if data[n] == '\n' {
        CodeBySplit(data[..n]);
        SplitEnd(data);
        var p := Split(data[..n], '\n');
        assert (p + [""])[..|p|] == p;
      } else {
        LastPiece(data, '\n');
        assert DropNewlines(data) == data;
        LastIsEarlier(data);
      }
    }
  }

  lemma SplitNothing()
    ensures Split("", '\n') == [""]
  {
  }

  lemma LastIsEarlier(data: string)
    requires data != "" && data[|data| - 1] != '\n'
    ensures LastIndex(data, '\n') + 1 < |data|
  {
  }

  lemma SplitEnd(data: string)
    requires data != "" && data[|data| - 1] == '\n'
    ensures Split(data, '\n') == Split(data[..|data| - 1], '\n') + [""]
  {
    hide Split;
    assert Free("", '\n');
    hide Free;
    SplitSnoc(data[..|data| - 1], "", '\n');
    assert data == data[..|data| - 1] + (['\n'] + "");
  }

  /** The lines before the status line, each with its newline. */
  function Head(lines: seq<string>): string {
    if lines == [] then "" else lines[0] + ['\n'] + Head(lines[1..])
  }

  lemma {:induction false} JoinHead(lines: seq<string>, more: seq<string>)
    requires more != []
    ensures Join(lines + more, '\n') == Head(lines) + Join(more, '\n')
  {
    if lines == [] {
      assert lines + more == more;
    } else {
      JoinHead(lines[1..], more);
      var all := lines + more;
      assert all[1..] == lines[1..] + more;
      assert lines[0] + ['\n'] + (Head(lines[1..]) + Join(more, '\n'))
          == lines[0] + ['\n'] + Head(lines[1..]) + Join(more, '\n');
    }
  }

  /** Where the status line starts. */
  function StatusAt(r: Reply): nat {
    |Head(r.lines)|
  }

  lemma DataIs(r: Reply)
    ensures r.Data() == Head(r.lines) + (r.status + "\n")
    ensures StatusAt(r) == |r.Data()| - 1 - |r.status|
  {
    JoinHead(r.lines, [r.status, ""]);
    assert [r.status, ""][1..] == [""];
    assert Join([r.status, ""], '\n') == r.status + ['\n'] + "";
    assert r.status + ['\n'] + "" == r.status + "\n";
  }

  /** No line before the status line starts with a code that means failure. */
  predicate LowCodes(lines: seq<string>) {
    forall i | 0 <= i < |lines| && Code4(lines[i]) :: Val(lines[i][..4]) < 1000
  }

  lemma CutLineIsLow(line: string, cut: string)
    requires cut <= line && (Code4(line) ==> Val(line[..4]) < 1000)
    ensures CodeOf(cut) < 1000
  {
    if EndsInCode(cut) {
      assert cut[..4] == line[..4];
    }
  }

  lemma {:induction false} LowPieces(pieces: seq<string>)
    requires forall i | 0 <= i < |pieces| :: CodeOf(pieces[i]) < 1000
    ensures CodeOf(LastLine(pieces)) < 1000
  {
    if pieces != [] && pieces[|pieces| - 1] == "" {
      LowPieces(pieces[..|pieces| - 1]);
    }
  }

  lemma CutHeadIsLow(r: Reply, k: nat)
    requires r.Conforms() && LowCodes(r.lines) && k < StatusAt(r)
    ensures k <= |r.Data()|
    ensures ReplyCode(r.Data()[..k]) < 1000
  {
    hide IsStatus;
    hide Split;
    hide CodeOf;
    hide ReplyCode;
    hide Code4;
    var d := r.Data();
    DataIs(r);
    DataSplits(r);
    var p, q := Split(d[..k], '\n'), Split(d, '\n');
    CodeBySplit(d[..k]);
    SplitPrefix(d, k, '\n');
    HeadPieces(r, k);
    forall i | 0 <= i < |p| ensures CodeOf(p[i]) < 1000 {
      assert i < |p| - 1 ==> p[i] == p[..|p| - 1][i] == q[..|p| - 1][i];
      assert p[i] <= q[i] && q[i] == r.lines[i];
      CutLineIsLow(r.lines[i], p[i]);
    }
    LowPieces(p);
  }

  lemma HeadPieces(r: Reply, k: nat)
    requires r.Conforms() && k < StatusAt(r)
    ensures k <= |r.Data()| && |Split(r.Data()[..k], '\n')| <= |r.lines|
  {
    hide IsStatus;
    hide Split;
    DataIs(r);
    var h := Head(r.lines);
    assert r.Data()[..k] == h[..k];
    HeadSplits(r.lines);
    SplitPrefix(h, k, '\n');
  }

  lemma HeadSplits(lines: seq<string>)
    requires forall i | 0 <= i < |lines| :: Free(lines[i], '\n')
    ensures Split(Head(lines), '\n') == lines + [""]
    ensures lines != [] ==> Head(lines) != "" && Head(lines)[|Head(lines)| - 1] == '\n'
  {
    HeadSplitsWith(lines, "");
    assert Head(lines) + "" == Head(lines);
    HeadEnds(lines);
  }

  lemma {:induction false} HeadEnds(lines: seq<string>)
    ensures lines != [] ==> Head(lines) != "" && Head(lines)[|Head(lines)| - 1] == '\n'
  {
    if lines != [] {
      HeadEnds(lines[1..]);
    }
  }

  lemma HeadSplitsWith(lines: seq<string>, t: string)
    requires Free(t, '\n') && forall i | 0 <= i < |lines| :: Free(lines[i], '\n')
    ensures Split(Head(lines) + t, '\n') == lines + [t]
  {
    hide Split;
    JoinHead(lines, [t]);
    SplitJoin(lines + [t], '\n');
  }

  lemma CutStatusCode(status: string, j: nat)
    requires IsStatus(status) && j <= |status|
    ensures CodeOf(status[..j]) == if j >= 4 then Val(status[..4]) else 0
  {
    hide Val;
    assert j >= 4 ==> status[..j][..4] == status[..4];
  }

  lemma LowLines(lines: seq<string>)
    requires LowCodes(lines)
    ensures CodeOf(LastLine(lines)) < 1000
  {
    forall i | 0 <= i < |lines| ensures CodeOf(lines[i]) < 1000 {
      CutLineIsLow(lines[i], lines[i]);
    }
    LowPieces(lines);
  }

  /** Once four characters of the status line have arrived its code is read. */
  lemma CutStatusReads(r: Reply, j: nat)
    requires r.Conforms() && LowCodes(r.lines) && j <= |r.status|
    ensures StatusAt(r) + j <= |r.Data()|
    ensures var code := ReplyCode(r.Data()[..StatusAt(r) + j]); if j >= 4 then code == r.StatusCode() else code < 1000
  {
    DataIs(r);
    var d, t := r.Data(), r.status[..j];
    assert d[..StatusAt(r) + j] == Head(r.lines) + t;
    HeadSplitsWith(r.lines, t);
    CodeBySplit(d[..StatusAt(r) + j]);
    LowLines(r.lines);
    CutStatusCode(r.status, j);
    assert (r.lines + [t])[..|r.lines|] == r.lines;
    hide Split;
    hide Head;
    hide CodeOf;
    hide ReplyCode;
    hide IsStatus;
    hide LowCodes;
  }

  /** Exactly which cuts of a reply read as success: those of a reply that is one, and those
      that lose part of the status code. */
  lemma CutReadsAsSuccessIff(r: Reply, k: nat)
    requires r.Conforms() && LowCodes(r.lines) && k <= |r.Data()|
    ensures ReplyCode(r.Data()[..k]) < 1000 <==> r.StatusCode() < 1000 || k < |r.Data()| - 1 - |r.status| + 4
  {
    hide ReplyCode;
    hide LowCodes;
    var d := r.Data();
    DataIs(r);
    hide Head;
    if k < StatusAt(r) {
      CutHeadIsLow(r, k);
    } else if k < |d| {
      CutStatusReads(r, k - StatusAt(r));
    } else {
      assert d[..k] == d;
      WholeReply(r);
      StatusHasCode(r.status);
    }
  }

  /** The guard that would tell: a complete reply with a code below 1000 is a success, all
      of which has arrived. */
  lemma CompleteSuccessIff(r: Reply, k: nat)
    requires r.Conforms() && k <= |r.Data()|
    ensures ReplyComplete(r.Data()[..k]) && ReplyCode(r.Data()[..k]) < 1000 <==>
            k == |r.Data()| && r.StatusCode() < 1000
  {
    hide ReplyCode;
    hide ReplyComplete;
    CompleteIffWhole(r, k);
    WholeReply(r);
    assert r.Data()[..|r.Data()|] == r.Data();
  }

  lemma StatusHasCode(line: string)
    requires IsStatus(line)
    ensures |line| >= 4
  {
  }

  /** An empty reply, as when the connection closes at once, reads as code 0. */
  lemma NothingReadsAsSuccess()
    ensures ReplyCode("") == 0 && !ReplyComplete("")
  {
    hide AllDigits;
    assert DropNewlines("") == "" && LastIndex("", '\n') == -1;
  }
}
