/** pbs-helper's report buffer: the first and the last lines of a backup's output, within
    the limits of the services that receive them. */
module Report {
  import opened Wrappers
  import opened Text

  const HEAD_BYTES := 3000
  const TAIL_BYTES := 6900

  /** Bytes of the lines, each with its newline. */
  function Size(lines: seq<string>): nat {
    if lines == [] then 0 else Size(lines[..|lines| - 1]) + |lines[|lines| - 1]| + 1
  }

  function Clip(line: string): string {
    if |line| + 1 > TAIL_BYTES then line[..TAIL_BYTES - 1] else line
  }

  function Clipped(lines: seq<string>): (r: seq<string>)
    ensures |r| == |lines| && forall i | 0 <= i < |lines| :: r[i] == Clip(lines[i])
  {
    if lines == [] then [] else Clipped(lines[..|lines| - 1]) + [Clip(lines[|lines| - 1])]
  }

  /** `head` is the longest run of first lines that fits. */
  predicate IsHead(head: seq<string>, lines: seq<string>) {
    && head <= lines && Size(head) <= HEAD_BYTES
    && (head == lines || Size(lines[..|head| + 1]) > HEAD_BYTES)
  }

  /** Dropping the first `n` lines leaves the longest run of last lines that fits. */
  predicate FitsAfter(lines: seq<string>, n: nat) {
    && n <= |lines| && Size(lines[n..]) <= TAIL_BYTES
    && (n == 0 || Size(lines[n - 1..]) > TAIL_BYTES)
  }

  lemma {:induction false} SizeAppend(a: seq<string>, b: seq<string>)
    ensures Size(a + b) == Size(a) + Size(b)
  {
    if b == [] {
      assert a + b == a;
    } else {
      var n := |b| - 1;
      assert (a + b)[..|a| + n] == a + b[..n];
      SizeAppend(a, b[..n]);
    }
  }

  class ReportBuffer {
    var head: seq<string>
    var headSize: nat
    var headOpen: bool
    var tail: seq<string>
    var sizes: seq<nat>
    var tailSize: nat
    var omitted: nat
    /** Everything added so far. */
    ghost var lines: seq<string>

    ghost predicate Valid()
      reads this
    {
      && IsHead(head, lines) && headSize == Size(head) && (headOpen <==> head == lines)
      && FitsAfter(Clipped(lines[|head|..]), omitted) && tail == Clipped(lines[|head|..])[omitted..]
      && Counted()
    }

    ghost predicate Counted()
      reads `tail, `sizes, `tailSize
    {
      tailSize == Size(tail) && |sizes| == |tail| && forall i | 0 <= i < |tail| :: sizes[i] == |tail[i]| + 1
    }

    constructor ()
      ensures Valid() && lines == []
    {
      head, headSize, headOpen := [], 0, true;
      tail, sizes, tailSize, omitted := [], [], 0, 0;
      lines := [];
    }

    /** Add a line; anything that is no string is ignored. */
    method Add(line: Option<string>)
      requires Valid()
      modifies this
      ensures Valid()
      ensures lines == if line.Some? then old(lines) + [line.value] else old(lines)
    {
      hide Size;
      hide Clip;
      hide Clipped;
      hide FitsAfter;
      hide Counted;
      if line.None? {
        return;
      }
      var l := line.value;
      var n := |l| + 1;
      SizePush(head, l);
      if headOpen && headSize + n <= HEAD_BYTES {
        AddToHead(l);
        return;
      }
      HeadStays(head, lines, l);
      ClippedPush(lines, |head|, l);
      ghost var rest := Clipped(lines[|head|..]);
      headOpen := false;
      lines := lines + [l];
      ClipFits(l);
      PushTail(Clip(l), rest);
    }

    method AddToHead(l: string)
      requires Valid() && headOpen && headSize + |l| + 1 <= HEAD_BYTES
      modifies `head, `headSize, `lines
      ensures Valid() && lines == old(lines) + [l]
    {
      hide Size;
      SizePush(head, l);
      assert lines[|head|..] == [];
      head := head + [l];
      headSize := headSize + |l| + 1;
      lines := lines + [l];
      assert lines[|head|..] == [];
    }

    /** The rest of `add` once the head is closed: push, and drop the oldest lines until the
        tail fits. */
    method PushTail(l: string, ghost rest: seq<string>)
      requires |l| + 1 <= TAIL_BYTES
      requires FitsAfter(rest, omitted) && tail == rest[omitted..] && Counted()
      modifies `tail, `sizes, `tailSize, `omitted
      ensures FitsAfter(rest + [l], omitted) && tail == (rest + [l])[omitted..] && Counted()
    {
      hide Size;
      TailGrows(rest, omitted, l);
      PushLast(l);
      DropOldest(rest + [l]);
    }

    method PushLast(l: string)
      requires Counted()
      modifies `tail, `sizes, `tailSize
      ensures Counted() && tail == old(tail) + [l]
    {
      SizePush(tail, l);
      hide Size;
      tail := tail + [l];
      sizes := sizes + [|l| + 1];
      tailSize := tailSize + |l| + 1;
    }

    method DropOldest(ghost all: seq<string>)
      requires omitted < |all| && |all[|all| - 1]| + 1 <= TAIL_BYTES && tail == all[omitted..] && Counted()
      requires omitted > 0 ==> Size(all[omitted - 1..]) > TAIL_BYTES
      modifies `tail, `sizes, `tailSize, `omitted
      ensures FitsAfter(all, omitted) && tail == all[omitted..] && Counted()
    {
      hide Size;
      LastSize(all);
      while tailSize > TAIL_BYTES
        invariant omitted < |all| && tail == all[omitted..] && Counted()
        invariant omitted > 0 ==> Size(all[omitted - 1..]) > TAIL_BYTES
        decreases |tail|
      {
        ShiftFirst();
        omitted := omitted + 1;
        assert all[omitted..] == tail;
      }
    }

    method ShiftFirst()
      requires Counted() && tail != []
      modifies `tail, `sizes, `tailSize
      ensures Counted() && tail == old(tail)[1..]
    {
      DropFirst(tail);
      hide Size;
      tail := tail[1..];
      tailSize := tailSize - sizes[0];
      sizes := sizes[1..];
    }

    function Marker(): string
      reads this
    {
      "[... " + Dec(omitted) + " lines omitted ...]"
    }

    /** The report: it fits in 9900 bytes and the marker. */
    method Report() returns (r: string)
      requires Valid()
      ensures var marker := "[... " + Dec(omitted) + " lines omitted ...]";
              r == Join(if omitted > 0 then head + [marker] + tail else head + tail, '\n')
      ensures |r| <= HEAD_BYTES + TAIL_BYTES + 24 + |Dec(omitted)|
    {
      var out := head;
      if omitted > 0 {
        out := out + [Marker()];
        SizeAppend(head, [Marker()]);
        OneSize(Marker());
      }
      SizeAppend(out, tail);
      out := out + tail;
      JoinSize(out);
      return Join(out, '\n');
    }
  }

  lemma OneSize(l: string)
    ensures Size([l]) == |l| + 1
  {
    assert [l][..0] == [];
  }

  lemma DropFirst(s: seq<string>)
    requires s != []
    ensures Size(s[1..]) == Size(s) - |s[0]| - 1
  {
    SizeAppend([s[0]], s[1..]);
    OneSize(s[0]);
    assert s == [s[0]] + s[1..];
  }

  lemma SizePush(s: seq<string>, l: string)
    ensures Size(s + [l]) == Size(s) + |l| + 1
  {
    assert (s + [l])[..|s|] == s;
  }

  lemma ClipFits(l: string)
    ensures |Clip(l)| + 1 <= TAIL_BYTES
  {
  }

  lemma ClippedPush(lines: seq<string>, n: nat, l: string)
    requires n <= |lines|
    ensures Clipped((lines + [l])[n..]) == Clipped(lines[n..]) + [Clip(l)]
  {
    var r := (lines + [l])[n..];
    assert r[..|r| - 1] == lines[n..];
  }

  /** A line that does not fit closes the head for good. */
  lemma HeadStays(head: seq<string>, lines: seq<string>, l: string)
    requires IsHead(head, lines) && (head == lines ==> Size(head) + |l| + 1 > HEAD_BYTES)
    ensures IsHead(head, lines + [l]) && head != lines + [l]
  {
    SizePush(head, l);
    hide Size;
    if head != lines {
      assert |head| < |lines|;
      assert (lines + [l])[..|head| + 1] == lines[..|head| + 1];
    } else {
      assert (lines + [l])[..|head| + 1] == head + [l];
    }
  }

  lemma TailGrows(rest: seq<string>, n: nat, l: string)
    requires FitsAfter(rest, n)
    ensures (rest + [l])[n..] == rest[n..] + [l]
    ensures n > 0 ==> Size((rest + [l])[n - 1..]) > TAIL_BYTES
  {
    hide Size;
    if n > 0 {
      assert (rest + [l])[n - 1..] == rest[n - 1..] + [l];
      SizePush(rest[n - 1..], l);
    }
  }

  lemma LastSize(all: seq<string>)
    requires all != []
    ensures Size(all[|all| - 1..]) == |all[|all| - 1]| + 1
  {
    assert all[|all| - 1..] == [all[|all| - 1]];
    OneSize(all[|all| - 1]);
  }

  lemma {:induction false} JoinSize(lines: seq<string>)
    ensures |Join(lines, '\n')| == if lines == [] then 0 else Size(lines) - 1
  {
    if |lines| == 1 {
      OneSize(lines[0]);
      assert lines == [lines[0]];
    } else if |lines| > 1 {
      JoinSize(lines[1..]);
      DropFirst(lines);
    }
  }

  lemma PrefixSize(s: seq<string>, n: nat)
    requires n <= |s|
    ensures Size(s[..n]) <= Size(s) && Size(s[n..]) <= Size(s)
  {
    assert s == s[..n] + s[n..];
    SizeAppend(s[..n], s[n..]);
  }

  /** The lines added determine head and tail. */
  /** The limits in bytes, newlines counted. */
  lemma LimitsAre(head: seq<string>, lines: seq<string>, n: nat, line: string)
    ensures IsHead(head, lines) <==>
            && head <= lines && Size(head) <= 3000
            && (|head| < |lines| ==> Size(lines[..|head| + 1]) > 3000)
    ensures FitsAfter(lines, n) <==>
            && n <= |lines| && Size(lines[n..]) <= 6900
            && (n > 0 ==> Size(lines[n - 1..]) > 6900)
    ensures Clip(line) == if |line| <= 6899 then line else line[..6899]
  {
    hide Size;
  }

  lemma HeadIsUnique(a: seq<string>, b: seq<string>, lines: seq<string>)
    requires IsHead(a, lines) && IsHead(b, lines)
    ensures a == b
  {
    hide Size;
    if |a| < |b| {
      assert lines[..|a| + 1] == b[..|a| + 1];
      PrefixSize(b, |a| + 1);
    } else if |b| < |a| {
      assert lines[..|b| + 1] == a[..|b| + 1];
      PrefixSize(a, |b| + 1);
    }
  }

  lemma TailIsUnique(lines: seq<string>, m: nat, n: nat)
    requires FitsAfter(lines, m) && FitsAfter(lines, n)
    ensures m == n
  {
    hide Size;
    if m < n {
      assert lines[n - 1..] == lines[m..][n - 1 - m..];
      PrefixSize(lines[m..], n - 1 - m);
    } else if n < m {
      assert lines[m - 1..] == lines[n..][m - 1 - n..];
      PrefixSize(lines[n..], m - 1 - n);
    }
  }

  lemma SomeSurvive(all: seq<string>, n: nat)
    requires FitsAfter(all, n) && all != [] && |all[|all| - 1]| + 1 <= TAIL_BYTES
    ensures n < |all|
  {
    LastSize(all);
  }

  /** The newest line, clipped, is always the last one kept. */
  lemma NewestSurvives(lines: seq<string>, n: nat)
    requires FitsAfter(Clipped(lines), n) && lines != []
    ensures n < |lines| && var tail := Clipped(lines)[n..]; tail[|tail| - 1] == Clip(lines[|lines| - 1])
  {
    hide Size;
    hide Clip;
    hide FitsAfter;
    var all := Clipped(lines);
    var last := |lines| - 1;
    assert all[last] == Clip(lines[last]);
    hide Clipped;
    ClipFits(lines[last]);
    SomeSurvive(all, n);
  }
}
