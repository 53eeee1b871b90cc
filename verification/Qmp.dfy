/** The QMP and guest agent client: messages cut out of a byte stream, replies matched to
    requests, and a stream brought back into step. */
module Qmp {
  import opened Wrappers
  import opened Text

  /** What the client looks at in a message. */
  datatype Msg = Greeting | Event | Return(value: int) | Failure(text: string) | NoObject

  type Json = string -> Option<Msg>

  // ----- the messages of a stream

  const NOISE := 0xFF as char

  /** `replace(data, '\xff', '')` */
  function Strip(s: string): string {
    if s == "" then "" else Strip(s[..|s| - 1]) + if s[|s| - 1] == NOISE then "" else [s[|s| - 1]]
  }

  /** First newline, or the length. */
  function LineEnd(s: string): (i: nat)
    ensures i <= |s| && (i < |s| ==> s[i] == '\n') && Free(s[..i], '\n')
  {
    if s == "" || s[0] == '\n' then 0 else LineEnd(s[1..]) + 1
  }

  /** The complete lines of a stream that are not blank, trimmed. */
  function Messages(s: string): seq<string>
    decreases |s|
  {
    var i := LineEnd(s);
    if i == |s| then []
    else (if Trim(s[..i]) == "" then [] else [Trim(s[..i])]) + Messages(s[i + 1..])
  }

  /** What follows the last complete line. */
  function Partial(s: string): string
    decreases |s|
  {
    var i := LineEnd(s);
    if i == |s| then s else Partial(s[i + 1..])
  }

  lemma {:induction false} StripAppend(a: string, b: string)
    ensures Strip(a + b) == Strip(a) + Strip(b)
  {
    if b == "" {
      assert a + b == a;
    } else {
      var n := |b| - 1;
      assert (a + b)[..|a| + n] == a + b[..n];
      StripAppend(a, b[..n]);
    }
  }

  /** What the client reads of a stream, written out: bytes 0xFF are dropped and all others
      kept in order, every line is a message unless it is blank, and what follows the last
      newline is none yet. */
  lemma {:induction false} StripIs(a: string, b: string)
    ensures (forall i | 0 <= i < |a| :: a[i] != 0xFF as char) ==> Strip(a) == a
    ensures Strip(a + [0xFF as char] + b) == Strip(a) + Strip(b)
  {
    StripAppend(a + [0xFF as char], b);
    assert (a + [0xFF as char])[..|a|] == a;
    if a != "" {
      StripIs(a[..|a| - 1], b);
      assert a == a[..|a| - 1] + [a[|a| - 1]];
    }
  }

  lemma {:induction false} LineIsMessage(line: string, rest: string)
    requires forall i | 0 <= i < |line| :: line[i] != '\n'
    ensures Messages(line) == [] && Partial(line) == line
    ensures Messages(line + "\n" + rest) == (if Trim(line) == "" then [] else [Trim(line)]) + Messages(rest)
    ensures Partial(line + "\n" + rest) == Partial(rest)
  {
    var s := line + "\n" + rest;
    assert forall i | 0 <= i < |line| :: s[i] == line[i];
    assert s[|line|] == '\n' && s[..|line|] == line && s[|line| + 1..] == rest;
    EndOfLine(s, |line|);
    EndOfLine(line, |line|);
    hide Trim;
    hide Messages;
    hide Partial;
    NextLine(s);
    NextLine(line);
  }

  lemma {:induction false} EndOfLine(s: string, n: nat)
    requires n <= |s| && (n < |s| ==> s[n] == '\n') && forall i | 0 <= i < n :: s[i] != '\n'
    ensures LineEnd(s) == n
  {
    if n > 0 {
      EndOfLine(s[1..], n - 1);
    }
  }

  /** A message that ends the wait for a reply: a reply, or a line that is no JSON. */
  predicate Decisive(json: Json, line: string) {
    var m := json(line);
    m.None? || m.value.Return? || m.value.Failure?
  }

  /** First decisive message from `i` on, or the number of messages. */
  function FirstDecisive(json: Json, q: seq<string>, i: nat): (k: nat)
    requires i <= |q|
    ensures i <= k <= |q| && (k < |q| ==> Decisive(json, q[k]))
    ensures forall j | i <= j < k :: !Decisive(json, q[j])
    decreases |q| - i
  {
    if i == |q| || Decisive(json, q[i]) then i else FirstDecisive(json, q, i + 1)
  }

  datatype Next = Got(msg: Msg) | Bad(line: string) | TimedOut | Closed

  datatype Answer = Reply(msg: Msg) | Garbage(line: string) | Lost | NotSent

  datatype Sync = Synced | ReadError | OutOfSync

  class Client {
    const json: Json
    /** Requests get through, and all the peer sends can be received at once. */
    const prompt: bool
    var buf: string
    /** Bytes the peer has sent that were not received yet. */
    var wire: string
    var connected: bool

    constructor (json: Json, wire: string, prompt: bool)
      ensures this.json == json && this.wire == wire && this.prompt == prompt && buf == "" && connected
    {
      this.json, this.wire, this.prompt, buf, connected := json, wire, prompt, "", true;
    }

    /** All bytes still to be read as messages, however they are split. */
    ghost function Stream(): string
      reads this
    {
      buf + Strip(wire)
    }

    ghost function Queue(): seq<string>
      reads this
    {
      Messages(Stream())
    }

    /** The messages to come once `answer` is on its way too. */
    ghost function QueueWith(answer: string): seq<string>
      reads this
    {
      Messages(Stream() + Strip(answer))
    }

    /** Some of the bytes on their way, at most 4096. */
    method Recv() returns (data: string)
      modifies `wire
      ensures old(wire) == data + wire && (prompt && old(wire) != "" ==> data != "")
    {
      var n: int := *;
      n := if prompt then (if |wire| < 4096 then |wire| else 4096) else n;
      n := if 0 <= n <= |wire| && n <= 4096 then n else 0;
      data := wire[..n];
      wire := wire[n..];
    }

    /** Receive once and keep what is no 0xFF byte. */
    method Fill() returns (got: bool)
      modifies `buf, `wire
      ensures Stream() == old(Stream())
      ensures if got then |wire| < |old(wire)| else buf == old(buf) && wire == old(wire)
      ensures prompt && old(wire) != "" ==> got
    {
      var data := Recv();
      if data == "" {
        assert data + wire == wire;
        return false;
      }
      StripAppend(data, wire);
      hide Strip;
      assert buf + (Strip(data) + Strip(wire)) == buf + Strip(data) + Strip(wire);
      buf := buf + Strip(data);
      return true;
    }

    /** The first complete line of the buffer, trimmed. */
    method TakeLine(nl: nat) returns (line: string)
      requires nl == LineEnd(buf) < |buf|
      modifies `buf
      ensures |buf| < |old(buf)|
      ensures Partial(Stream()) == old(Partial(Stream()))
      ensures old(Queue()) == (if line == "" then [] else [line]) + Queue()
      ensures old(Stream()) == old(buf)[..nl + 1] + Stream()
      ensures Partial(old(buf)[..nl + 1]) == "" && Messages(old(buf)[..nl + 1]) == if line == "" then [] else [line]
    {
      hide Trim;
      hide Strip;
      hide Messages;
      hide Partial;
      FirstLine(buf, Strip(wire));
      OneLine(buf, nl);
      line := Trim(buf[..nl]);
      buf := buf[nl + 1..];
    }

    /** The next message.  It depends only on the bytes of the stream; nothing is lost when
        it does not arrive in time, and that happens only when no whole line has arrived. */
    method NextMessage() returns (r: Next, ghost read: string)
      modifies `buf, `wire
      ensures Partial(Stream()) == old(Partial(Stream()))
      ensures r.Got? ==> old(Queue()) != [] && Queue() == old(Queue())[1..] && json(old(Queue())[0]) == Some(r.msg)
      ensures r.Bad? ==> old(Queue()) != [] && Queue() == old(Queue())[1..]
      ensures r.Bad? ==> json(r.line) == None && r.line == old(Queue())[0]
      ensures r.TimedOut? || r.Closed? ==> Queue() == old(Queue())
      ensures r.TimedOut? || r.Closed? ==> LineEnd(buf) == |buf| && (prompt ==> wire == "")
      // what was read: whole lines, none of them a message but the one returned
      ensures old(Stream()) == read + Stream() && Partial(read) == ""
      ensures |Messages(read)| == if r.Got? || r.Bad? then 1 else 0
      ensures r.Got? ==> json(Messages(read)[0]) == Some(r.msg)
      ensures r.Bad? ==> json(Messages(read)[0]) == None
    {
      hide Messages;
      hide Partial;
      hide Strip;
      Nothing();
      read := "";
      while true
        invariant Partial(Stream()) == old(Partial(Stream())) && Queue() == old(Queue())
        invariant old(Stream()) == read + Stream() && Partial(read) == "" && Messages(read) == []
        decreases |wire|, |buf|
      {
        var nl := LineEnd(buf);
        if nl < |buf| {
          ghost var piece, before := buf[..nl + 1], read;
          var line := TakeLine(nl);
          MessagesAppend(before, piece);
          read := before + piece;
          assert before + (piece + Stream()) == read + Stream();
          if line == "" {
            continue;
          }
          var msg := json(line);
          return if msg.None? then Bad(line) else Got(msg.value), read;
        }
        var ready: bool := *;
        ready := if prompt then wire != "" else ready;
        if !ready {
          return TimedOut, read;
        }
        var got := Fill();
        if !got {
          return Closed, read;
        }
      }
    }

    method Close()
      modifies `connected
      ensures !connected
    {
      connected := false;
    }

    // ----- requests

    /** Send a request; whatever the peer sends from then on is `answer`. */
    method Send(answer: string) returns (ok: bool)
      modifies `wire
      ensures ok ==> Stream() == old(Stream()) + Strip(answer)
      ensures !ok ==> wire == old(wire) && !prompt
    {
      ok := *;
      ok := ok || prompt;
      if ok {
        StripAppend(wire, answer);
        hide Strip;
        assert buf + (Strip(wire) + Strip(answer)) == buf + Strip(wire) + Strip(answer);
        wire := wire + answer;
      }
    }

    /** Send a request and take the first message that is a reply (or no JSON) as its
        answer, whatever else is in between. */
    method Execute(answer: string) returns (r: Answer)
      modifies `buf, `wire
      ensures r.NotSent? ==> Stream() == old(Stream()) && !prompt
      ensures r.Lost? ==> LineEnd(buf) == |buf|
      ensures r.Lost? && prompt ==> FirstDecisive(json, old(QueueWith(answer)), 0) == |old(QueueWith(answer))|
      ensures !r.NotSent? ==> Partial(Stream()) == old(Partial(Stream() + Strip(answer)))
      ensures !r.NotSent? ==> Outcome(json, old(QueueWith(answer)), r, Queue())
    {
      hide Messages;
      hide Partial;
      hide Strip;
      hide Decisive;
      var sent := Send(answer);
      if !sent {
        return NotSent;
      }
      ghost var q := Queue();
      ghost var k := 0;
      while true
        invariant Partial(Stream()) == Partial(old(Stream()) + Strip(answer))
        invariant k <= |q| && Queue() == q[k..]
        invariant FirstDecisive(json, q, 0) == FirstDecisive(json, q, k)
        decreases |q| - k
      {
        var n, read := NextMessage();
        if n.TimedOut? || n.Closed? {
          if prompt {
            NothingLeft(buf);
          }
          return Lost;
        }
        DecisiveIs(json, q[k]);
        k := k + 1;
        if n.Bad? {
          return Garbage(n.line);
        }
        if n.msg.Return? || n.msg.Failure? {
          return Reply(n.msg);
        }
      }
    }

    /** Read the greeting and leave negotiation mode; the connection is closed on failure. */
    method Negotiate(answer: string) returns (ok: bool)
      requires connected
      modifies this
      ensures connected <==> ok
      ensures ok ==> Negotiated(json, old(Queue()), old(QueueWith(answer)))
      ensures prompt ==> (ok <==> Negotiated(json, old(Queue()), old(QueueWith(answer))))
    {
      hide Messages;
      hide Partial;
      hide Strip;
      hide FirstDecisive;
      var g, read := NextMessage();
      MessagesAppend(read, Stream() + Strip(answer));
      assert read + Stream() + Strip(answer) == read + (Stream() + Strip(answer));
      if !(g.Got? && g.msg.Greeting?) {
        if prompt && !g.Got? && !g.Bad? {
          NothingLeft(buf);
        }
        Close();
        return false;
      }
      var r := Execute(answer);
      if !(r.Reply? && r.msg.Return?) {
        Close();
        return false;
      }
      return true;
    }

    /** Bring a guest agent's stream back into step: send one sync request and skip up to
        seven messages that are not its answer. */
    method AgentSession(id: int, answer: string) returns (r: Sync)
      requires connected
      modifies this
      ensures connected <==> r.Synced?
      ensures r.ReadError? ==> NoJsonFirst(json, old(QueueWith(answer)), id) || LineEnd(buf) == |buf|
                               || (buf == old(buf) && wire == old(wire))
      ensures prompt ==> (r.Synced? <==> Found(json, old(QueueWith(answer)), id))
      ensures !r.ReadError? ==> (r.Synced? <==> SyncAt(json, old(QueueWith(answer)), id) < 8)
      ensures r.Synced? ==> SyncAt(json, old(QueueWith(answer)), id) < |old(QueueWith(answer))|
      ensures r.Synced? ==> Queue() == old(QueueWith(answer))[SyncAt(json, old(QueueWith(answer)), id) + 1..]
      ensures r.Synced? ==> Partial(Stream()) == old(Partial(Stream() + Strip(answer)))
    {
      hide Messages;
      hide Partial;
      hide Strip;
      hide SyncAt;
      hide LineEnd;
      var sent := Send(answer);
      if !sent {
        Close();
        return ReadError;
      }
      ghost var q := Queue();
      for tries := 0 to 8
        invariant connected && Partial(Stream()) == Partial(old(Stream()) + Strip(answer))
        invariant tries <= |q| && Queue() == q[tries..]
        invariant forall i | 0 <= i < tries :: json(q[i]).Some? && json(q[i]) != Some(Return(id))
      {
        var n, read := NextMessage();
        if !n.Got? {
          Close();
          if !n.Bad? && prompt {
            NothingLeft(buf);
          }
          return ReadError;
        }
        if n.msg == Return(id) {
          return Synced;
        }
        assert q[tries..][1..] == q[tries + 1..];
      }
      Close();
      return OutOfSync;
    }
  }

  /** The stream starts with a greeting, and the first reply behind it is a success. */
  ghost predicate Negotiated(json: Json, q: seq<string>, all: seq<string>) {
    && q != [] && json(q[0]) == Some(Greeting) && all != []
    && var k := FirstDecisive(json, all[1..], 0);
       k < |all[1..]| && json(all[1..][k]).Some? && json(all[1..][k]).value.Return?
  }

  /** The answer to the sync is among the first eight messages, behind nothing but JSON. */
  ghost predicate Found(json: Json, q: seq<string>, id: int) {
    exists n | 0 <= n < 8 && n < |q| :: json(q[n]) == Some(Return(id)) && forall i | 0 <= i < n :: json(q[i]).Some?
  }

  /** A line that is no JSON comes before it. */
  ghost predicate NoJsonFirst(json: Json, q: seq<string>, id: int) {
    exists n | 0 <= n < 8 && n < |q| :: json(q[n]) == None && forall i | 0 <= i < n :: json(q[i]) != Some(Return(id))
  }

  lemma Nothing()
    ensures Messages("") == [] && Partial("") == ""
  {
  }

  lemma NothingLeft(buf: string)
    requires LineEnd(buf) == |buf|
    ensures Messages(buf + Strip("")) == []
  {
    assert buf + Strip("") == buf;
  }

  lemma OneLine(buf: string, nl: nat)
    requires nl == LineEnd(buf) < |buf|
    ensures Partial(buf[..nl + 1]) == ""
    ensures Messages(buf[..nl + 1]) == if Trim(buf[..nl]) == "" then [] else [Trim(buf[..nl])]
  {
    hide Trim;
    var s := buf[..nl + 1];
    LineEndHere(buf, nl);
    assert s[..nl] == buf[..nl] && s[nl + 1..] == "";
    NextLine(s);
    Nothing();
  }

  lemma {:induction false} LineEndHere(buf: string, nl: nat)
    requires nl == LineEnd(buf) < |buf|
    ensures LineEnd(buf[..nl + 1]) == nl
  {
    if buf[0] != '\n' {
      LineEndHere(buf[1..], nl - 1);
      assert buf[..nl + 1][1..] == buf[1..][..nl];
    }
  }

  lemma DecisiveIs(json: Json, line: string)
    ensures Decisive(json, line) <==> var m := json(line); m.None? || m.value.Return? || m.value.Failure?
  {
  }

  /** How a wait for a reply ends, and which messages it leaves, given all messages. */
  ghost predicate Outcome(json: Json, q: seq<string>, r: Answer, left: seq<string>) {
    var k := FirstDecisive(json, q, 0);
    match r
    case Reply(msg) => k < |q| && json(q[k]) == Some(msg) && left == q[k + 1..]
    case Garbage(line) => k < |q| && json(q[k]) == None && q[k] == line && left == q[k + 1..]
    case Lost => exists j | 0 <= j <= k :: left == q[j..]
    case NotSent => false
  }

  /** Position of the first message that answers sync request `id`, or the number of
      messages. */
  function SyncAt(json: Json, q: seq<string>, id: int): (k: nat)
    ensures k <= |q| && (k < |q| ==> json(q[k]) == Some(Return(id)))
    ensures forall j | 0 <= j < k :: json(q[j]) != Some(Return(id))
  {
    if q == [] || json(q[0]) == Some(Return(id)) then 0 else 1 + SyncAt(json, q[1..], id)
  }

  /** A complete line in the buffer is the first line of the stream. */
  lemma FirstLine(buf: string, rest: string)
    requires LineEnd(buf) < |buf|
    ensures var i := LineEnd(buf);
            && Partial(buf + rest) == Partial(buf[i + 1..] + rest)
            && Messages(buf + rest)
                 == (if Trim(buf[..i]) == "" then [] else [Trim(buf[..i])]) + Messages(buf[i + 1..] + rest)
  {
    var i := LineEnd(buf);
    LineEndStays(buf, rest);
    assert (buf + rest)[..i] == buf[..i];
    assert (buf + rest)[i + 1..] == buf[i + 1..] + rest;
  }

  lemma {:induction false} LineEndStays(s: string, t: string)
    requires LineEnd(s) < |s|
    ensures LineEnd(s + t) == LineEnd(s)
  {
    if s[0] != '\n' {
      assert (s + t)[1..] == s[1..] + t;
      LineEndStays(s[1..], t);
    }
  }

  // ----- streams in step

  lemma {:induction false} NextLine(s: string)
    ensures var i := LineEnd(s);
            if i == |s| then Messages(s) == [] && Partial(s) == s
            else
              && Messages(s) == (if Trim(s[..i]) == "" then [] else [Trim(s[..i])]) + Messages(s[i + 1..])
              && Partial(s) == Partial(s[i + 1..])
  {
    hide LineEnd;
    hide Trim;
    hide Free;
  }

  lemma {:induction false} MessagesAppend(s: string, t: string)
    requires Partial(s) == ""
    ensures Messages(s + t) == Messages(s) + Messages(t) && Partial(s + t) == Partial(t)
    decreases |s|
  {
    hide Trim;
    hide LineEnd;
    hide Free;
    hide Messages;
    hide Partial;
    NextLine(s);
    var i := LineEnd(s);
    if i == |s| {
      assert s + t == t;
    } else {
      var rest := s[i + 1..];
      var first := if Trim(s[..i]) == "" then [] else [Trim(s[..i])];
      FirstLine(s, t);
      MessagesAppend(rest, t);
      assert first + (Messages(rest) + Messages(t)) == first + Messages(rest) + Messages(t);
    }
  }

  /** No reply is on its way and no line is half read. */
  ghost predicate InStep(json: Json, s: string) {
    Partial(s) == "" && FirstDecisive(json, Messages(s), 0) == |Messages(s)|
  }

  /** What a peer sends for one request: complete lines, among them exactly one decisive
      message, its reply. */
  ghost predicate Answers(json: Json, text: string, reply: string) {
    var q := Messages(text);
    var k := FirstDecisive(json, q, 0);
    Partial(text) == "" && k < |q| && q[k] == reply && FirstDecisive(json, q, k + 1) == |q|
  }

  lemma {:induction false} FirstInFront(json: Json, a: seq<string>, b: seq<string>, i: nat)
    requires i <= |a|
    ensures FirstDecisive(json, a + b, i)
         == if FirstDecisive(json, a, i) < |a| then FirstDecisive(json, a, i) else |a| + FirstDecisive(json, b, 0)
    decreases |a| - i
  {
    hide Decisive;
    if i < |a| {
      assert (a + b)[i] == a[i];
      FirstInFront(json, a, b, i + 1);
    } else {
      FirstFrom(json, a, b, 0);
    }
  }

  lemma {:induction false} FirstFrom(json: Json, a: seq<string>, b: seq<string>, i: nat)
    requires i <= |b|
    ensures FirstDecisive(json, a + b, |a| + i) == |a| + FirstDecisive(json, b, i)
    decreases |b| - i
  {
    hide Decisive;
    if i < |b| {
      assert (a + b)[|a| + i] == b[i];
      FirstFrom(json, a, b, i + 1);
    }
  }

  lemma FirstOfRest(json: Json, q: seq<string>, n: nat)
    requires n <= |q|
    ensures FirstDecisive(json, q, n) == n + FirstDecisive(json, q[n..], 0)
  {
    assert q == q[..n] + q[n..];
    FirstFrom(json, q[..n], q[n..], 0);
  }

  /** A request gets its own reply exactly when no reply to an earlier one is pending. */
  lemma OwnReplyIff(json: Json, s: string, text: string, reply: string)
    requires Partial(s) == "" && Answers(json, text, reply)
    ensures var q := Messages(s + text); var k := FirstDecisive(json, q, 0);
            && k < |q|
            && (InStep(json, s) ==> q[k] == reply && FirstDecisive(json, q[k + 1..], 0) == |q[k + 1..]|)
            && (!InStep(json, s) ==> k < |Messages(s)| && q[k] == Messages(s)[k])
  {
    hide Messages;
    hide Partial;
    hide Decisive;
    hide FirstDecisive;
    MessagesAppend(s, text);
    var a, b := Messages(s), Messages(text);
    var k := FirstDecisive(json, a + b, 0);
    FirstInFront(json, a, b, 0);
    if InStep(json, s) {
      var m := FirstDecisive(json, b, 0);
      assert (a + b)[k] == b[m] && (a + b)[k + 1..] == b[m + 1..];
      FirstOfRest(json, b, m + 1);
    }
  }

  /** Without losses, the k-th request gets the k-th reply, whatever events are mixed in and
      however the bytes are split. */
  method Converse(c: Client, answers: seq<string>, ghost replies: seq<string>) returns (results: seq<Answer>)
    requires |replies| == |answers| && InStep(c.json, c.Stream())
    requires forall i | 0 <= i < |answers| :: Answers(c.json, Strip(answers[i]), replies[i])
    modifies c
    ensures |results| <= |answers|
    ensures forall i | 0 <= i < |results| :: results[i] == ReplyOf(c.json, replies[i])
                                          || (i == |results| - 1 && (results[i].Lost? || results[i].NotSent?))
    ensures |results| == |answers| || (results != [] && (var r := results[|results| - 1]; r.Lost? || r.NotSent?))
    ensures c.prompt ==> |results| == |answers| && forall r | r in results :: r.Reply? || r.Garbage?
    ensures results != [] && results[|results| - 1].Lost? ==> LineEnd(c.buf) == |c.buf|
    ensures (forall r | r in results :: !r.Lost? && !r.NotSent?) ==> InStep(c.json, c.Stream())
  {
    hide Answers;
    hide Strip;
    results := [];
    for i := 0 to |answers|
      invariant InStep(c.json, c.Stream()) && |results| == i && forall r | r in results :: r.Reply? || r.Garbage?
      invariant forall j | 0 <= j < i :: results[j] == ReplyOf(c.json, replies[j])
    {
      var r := Ask(c, answers[i], replies[i]);
      results := results + [r];
      if r.Lost? || r.NotSent? {
        return;
      }
    }
  }

  function ReplyOf(json: Json, line: string): Answer {
    if json(line).Some? then Reply(json(line).value) else Garbage(line)
  }

  /** One request on a stream in step: its own reply, and the stream stays in step. */
  method Ask(c: Client, answer: string, ghost reply: string) returns (r: Answer)
    requires InStep(c.json, c.Stream()) && Answers(c.json, Strip(answer), reply)
    modifies c
    ensures !r.Lost? && !r.NotSent? ==> r == ReplyOf(c.json, reply) && InStep(c.json, c.Stream())
    ensures c.prompt ==> r.Reply? || r.Garbage?
    ensures r.Lost? ==> LineEnd(c.buf) == |c.buf|
  {
    hide Strip;
    hide Messages;
    hide Partial;
    hide FirstDecisive;
    hide Decisive;
    OwnReplyIff(c.json, c.Stream(), Strip(answer), reply);
    MessagesAppend(c.Stream(), Strip(answer));
    r := c.Execute(answer);
  }

  // ----- replies owed

  /** The decisive messages of a queue, oldest first. */
  function Replies(json: Json, q: seq<string>): seq<string> {
    if q == [] then [] else (if Decisive(json, q[0]) then [q[0]] else []) + Replies(json, q[1..])
  }

  lemma RepliesStep(json: Json, q: seq<string>)
    requires q != []
    ensures Replies(json, q) == (if Decisive(json, q[0]) then [q[0]] else []) + Replies(json, q[1..])
  {
  }

  lemma {:induction false} RepliesAppend(json: Json, a: seq<string>, b: seq<string>)
    ensures Replies(json, a + b) == Replies(json, a) + Replies(json, b)
  {
    hide Decisive;
    if a == [] {
      assert a + b == b;
    } else {
      hide Replies;
      RepliesStep(json, a);
      RepliesStep(json, a + b);
      assert (a + b)[1..] == a[1..] + b;
      RepliesAppend(json, a[1..], b);
      var x := if Decisive(json, a[0]) then [a[0]] else [];
      assert x + (Replies(json, a[1..]) + Replies(json, b)) == x + Replies(json, a[1..]) + Replies(json, b);
    }
  }

  /** Messages in front of the first decisive one are no replies. */
  lemma {:induction false} NoReplyBefore(json: Json, q: seq<string>, i: nat)
    requires i <= FirstDecisive(json, q, 0)
    ensures Replies(json, q[i..]) == Replies(json, q)
    decreases i
  {
    hide Decisive;
    if i == 0 {
      assert q[i..] == q;
    } else {
      NoReplyBefore(json, q, i - 1);
      var rest := q[i - 1..];
      assert rest[0] == q[i - 1] && rest[1..] == q[i..];
    }
  }

  /** The first decisive message is the oldest reply. */
  lemma {:induction false} OldestReply(json: Json, q: seq<string>)
    ensures var k := FirstDecisive(json, q, 0);
            if k == |q| then Replies(json, q) == []
            else Replies(json, q) == [q[k]] + Replies(json, q[k + 1..])
  {
    hide Decisive;
    var k := FirstDecisive(json, q, 0);
    NoReplyBefore(json, q, k);
    if k < |q| {
      assert q[k..][0] == q[k] && q[k..][1..] == q[k + 1..];
    }
  }

  /** No line is half read, and these replies are on their way, oldest first. */
  ghost predicate Owes(json: Json, s: string, owed: seq<string>) {
    Partial(s) == "" && Replies(json, Messages(s)) == owed
  }

  /** Each request adds its reply to those owed, an answer is always the oldest one, and a
      timeout takes nothing away. */
  method Request(c: Client, answer: string, ghost reply: string, ghost owed: seq<string>) returns (r: Answer)
    requires Owes(c.json, c.Stream(), owed) && Answers(c.json, Strip(answer), reply)
    modifies c
    ensures c.prompt ==> r.Reply? || r.Garbage?
    ensures r.Lost? ==> LineEnd(c.buf) == |c.buf|
    ensures r.NotSent? ==> Owes(c.json, c.Stream(), owed)
    ensures r.Lost? ==> Owes(c.json, c.Stream(), owed + [reply])
    ensures r.Reply? || r.Garbage? ==>
              r == ReplyOf(c.json, (owed + [reply])[0]) && Owes(c.json, c.Stream(), (owed + [reply])[1..])
  {
    hide Strip;
    hide Messages;
    hide Partial;
    hide Decisive;
    hide FirstDecisive;
    hide Replies;
    ghost var q := c.QueueWith(answer);
    MessagesAppend(c.Stream(), Strip(answer));
    AnswersOnce(c.json, Strip(answer), reply);
    RepliesAppend(c.json, Messages(c.Stream()), Messages(Strip(answer)));
    assert Replies(c.json, q) == owed + [reply];
    r := c.Execute(answer);
    if r.Lost? {
      ghost var j: nat :| j <= FirstDecisive(c.json, q, 0) && c.Queue() == q[j..];
      NoReplyBefore(c.json, q, j);
      OldestReply(c.json, q);
    } else if !r.NotSent? {
      OldestReply(c.json, q);
    }
  }

  lemma AnswersOnce(json: Json, text: string, reply: string)
    requires Answers(json, text, reply)
    ensures Replies(json, Messages(text)) == [reply]
  {
    hide Decisive;
    var q := Messages(text);
    hide Messages;
    var k := FirstDecisive(json, q, 0);
    OldestReply(json, q);
    FirstOfRest(json, q, k + 1);
    OldestReply(json, q[k + 1..]);
  }

  /** After a lost reply the next request gets the lost one's. */
  lemma LostReplyShiftsTheRest(json: Json, lost: string, text: string, reply: string)
    requires Decisive(json, lost) && Messages(lost + "\n") == [lost] && Partial(lost + "\n") == ""
    requires Answers(json, text, reply)
    ensures var q := Messages(lost + "\n" + text); var k := FirstDecisive(json, q, 0); k < |q| && q[k] == lost
  {
    OwnReplyIff(json, lost + "\n", text, reply);
    assert FirstDecisive(json, [lost], 0) == 0;
  }

  /** A sync with a fresh id is found behind all stale messages, so it is found in time
      exactly when these are fewer than eight; then only what follows it is left. */
  lemma SyncIsFound(json: Json, stale: seq<string>, sync: string, late: seq<string>, id: int)
    requires json(sync) == Some(Return(id)) && forall l | l in stale :: json(l) != Some(Return(id))
    ensures var q := stale + ([sync] + late); SyncAt(json, q, id) == |stale| && q[|stale| + 1..] == late
  {
    var q := stale + ([sync] + late);
    var k := SyncAt(json, q, id);
    assert q[|stale|] == sync;
    assert forall j | 0 <= j < |stale| :: q[j] == stale[j] && stale[j] in stale;
    assert k >= |stale|;
  }
}
