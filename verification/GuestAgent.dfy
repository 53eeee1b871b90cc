/** The guest agent's end of its connection, as far as freezing goes: it carries out requests
    in the order they were sent, whenever it gets to it, and its replies come back in that
    order.  A reply that the client did not wait for stays in the stream, so the next
    request is answered with it (`Qmp.LostReplyShiftsTheRest`). */
module GuestAgent {
  import opened DiskModel
  import opened Wrappers

  datatype Command = AskStatus | AskFreeze | AskThaw

  datatype Reply = Reply(ok: bool, frozen: bool)

  /** A request, and the reply to it once the agent has carried it out. */
  datatype Request = Request(n: nat, cmd: Command, reply: Option<Reply>)

  /** What a client gets for a request. */
  datatype Answer = Answered(reply: Reply) | TimedOut | NotSent

  datatype Agent = Agent(
    owed: seq<Request>,     // requests whose replies have not been read, oldest first
    channel: nat,           // the QEMU process they were sent to
    sent: nat,              // how many requests were sent so far
    synced: Option<nat>,    // history: since this step no freeze but the one below can happen
    freezeNo: Option<nat>,  // the freeze the running program has asked for
    took: Option<nat>,      // history: the step in which it took effect
    melted: bool)           // history: a thaw took effect after it

  predicate Alive(s: State, gen: nat) {
    s.act != Off && s.gen == gen
  }

  // ----- requests

  /** One more request. */
  function Sent(a: Agent, cmd: Command): Agent {
    var r := Request(a.sent, cmd, None);
    a.(owed := a.owed + [r], sent := a.sent + 1, freezeNo := if cmd == AskFreeze then Some(a.sent) else a.freezeNo)
  }

  /** The first request that is still to be carried out, or the number of requests. */
  function Due(owed: seq<Request>): (i: nat)
    ensures i <= |owed| && (i < |owed| ==> owed[i].reply == None)
    ensures forall j | 0 <= j < i :: owed[j].reply.Some?
  {
    if owed == [] || owed[0].reply == None then 0 else 1 + Due(owed[1..])
  }

  predicate Idle(a: Agent) {
    forall r | r in a.owed :: r.reply.Some?
  }

  /** The step a request comes down to, if any. */
  function StepOf(cmd: Command, effect: bool): Option<Event> {
    match cmd
    case AskStatus => None
    case AskFreeze => if effect then Some(Freeze) else None
    case AskThaw => if effect then Some(Thaw) else None
  }

  function After(s: State, e: Option<Event>): State
    requires e.Some? ==> Enabled(s, e.value)
  {
    if e == None then s else Apply(s, e.value)
  }

  /** The agent carries out its next request, as step `at` of the history. */
  function Ran(a: Agent, s: State, at: nat, effect: bool, ok: bool): Agent
    requires Due(a.owed) < |a.owed|
  {
    var i := Due(a.owed);
    var r := a.owed[i];
    var b := a.(owed := a.owed[i := r.(reply := Some(Reply(ok, s.frozen)))]);
    match StepOf(r.cmd, effect)
    case Some(Freeze) => if a.freezeNo == Some(r.n) then b.(took := Some(at)) else b
    case Some(Thaw) => if a.took.Some? then b.(melted := true) else b
    case _ => b
  }

  // ----- what stays true of them

  /** Requests are in the order they were sent, and carried out in that order. */
  predicate Ordered(a: Agent) {
    && (forall i | 0 <= i < |a.owed| :: a.owed[i].n < a.sent)
    && (forall i, j | 0 <= i < j < |a.owed| :: a.owed[i].n < a.owed[j].n)
    && (forall i, j | 0 <= i < j < |a.owed| && a.owed[j].reply.Some? :: a.owed[i].reply.Some?)
  }

  predicate Worked(r: Request) {
    r.reply.Some? && r.reply.value.ok
  }

  /** What is known of a request of the running program. */
  predicate RequestKnown(a: Agent, r: Request) {
    && (r.cmd == AskFreeze <==> a.freezeNo == Some(r.n))
    && (r.cmd == AskFreeze && Worked(r) ==> a.took.Some?)
    && (a.took.Some? && a.freezeNo.Some? && r.reply == None ==> r.n > a.freezeNo.value)
    && (a.freezeNo.Some? && r.n > a.freezeNo.value ==> r.cmd == AskThaw && (Worked(r) ==> a.took == None || a.melted))
  }

  predicate RequestsKnown(a: Agent) {
    a.synced.Some? ==> forall r | r in a.owed :: RequestKnown(a, r)
  }

  /** The program's freeze is the only one since `synced`. */
  predicate OnlyFreeze(a: Agent, steps: seq<Event>) {
    a.synced.Some? ==> forall j | a.synced.value <= j < |steps| && steps[j] == Freeze :: a.took == Some(j)
  }

  /** The guest is frozen by it exactly while no thaw took effect and the process that froze
      it lives. */
  predicate FreezeKnown(a: Agent, s: State, steps: seq<Event>) {
    && (a.synced.Some? ==> a.synced.value <= |steps|)
    && (a.freezeNo == None ==> a.took == None)
    && (a.freezeNo.Some? ==> a.synced.Some? && a.freezeNo.value < a.sent && a.channel <= s.gen)
    && (a.freezeNo.Some? && a.sent == a.freezeNo.value + 1 ==> !a.melted)
    && (a.took == None ==> !a.melted)
    && (a.took.Some? ==>
      && a.synced.value <= a.took.value < |steps| && steps[a.took.value] == Freeze
      && (s.frozen <==> !a.melted && Alive(s, a.channel)))
  }

  predicate Known(a: Agent, s: State, steps: seq<Event>) {
    Ordered(a) && RequestsKnown(a) && OnlyFreeze(a, steps) && FreezeKnown(a, s, steps)
  }

  /** What waiting leaves as it is, or only adds to. */
  predicate Passed(a: Agent, b: Agent) {
    && b.channel == a.channel && b.sent == a.sent && b.synced == a.synced && b.freezeNo == a.freezeNo
    && (a.took.Some? ==> b.took == a.took) && (a.melted ==> b.melted)
    && (Idle(a) ==> b == a)
  }

  /** The same requests, some of them carried out meanwhile. */
  predicate Onward(a: Agent, b: Agent) {
    && Passed(a, b) && |b.owed| == |a.owed|
    && forall i | 0 <= i < |a.owed| :: b.owed[i].n == a.owed[i].n && b.owed[i].cmd == a.owed[i].cmd
                                    && (a.owed[i].reply.Some? ==> b.owed[i] == a.owed[i])
  }

  lemma OnwardTwice(a: Agent, b: Agent, c: Agent)
    requires Onward(a, b) && Onward(b, c)
    ensures Onward(a, c)
  {
  }

  lemma RanOnward(a: Agent, s: State, at: nat, effect: bool, ok: bool)
    requires Due(a.owed) < |a.owed| && (a.took.Some? ==> a.freezeNo.Some?)
    requires a.took.Some? ==> forall r | r in a.owed && r.reply == None :: r.cmd != AskFreeze
    ensures Onward(a, Ran(a, s, at, effect, ok))
  {
    var i := Due(a.owed);
    assert a.owed[i] in a.owed;
  }

  lemma RanOrdered(a: Agent, s: State, at: nat, effect: bool, ok: bool)
    requires Due(a.owed) < |a.owed| && Ordered(a)
    ensures Ordered(Ran(a, s, at, effect, ok))
  {
    var i, b := Due(a.owed), Ran(a, s, at, effect, ok);
    assert b.owed == a.owed[i := a.owed[i].(reply := Some(Reply(ok, s.frozen)))] && b.sent == a.sent;
    hide Ran;
  }

  lemma RanRequests(a: Agent, s: State, at: nat, steps: seq<Event>, effect: bool, ok: bool)
    requires Due(a.owed) < |a.owed| && Known(a, s, steps) && (ok ==> effect)
    ensures RequestsKnown(Ran(a, s, at, effect, ok))
  {
    var i, b := Due(a.owed), Ran(a, s, at, effect, ok);
    if a.synced.Some? {
      forall j | 0 <= j < |b.owed| ensures RequestKnown(b, b.owed[j]) {
        assert a.owed[j] in a.owed && a.owed[i] in a.owed;
        assert RequestKnown(a, a.owed[j]) && RequestKnown(a, a.owed[i]);
      }
    }
  }

  /** Carrying out a request keeps what is known. */
  lemma RanKnown(a: Agent, s: State, steps: seq<Event>, effect: bool, ok: bool)
    requires Due(a.owed) < |a.owed| && Known(a, s, steps) && (ok ==> effect) && Alive(s, a.channel)
    ensures var e := StepOf(a.owed[Due(a.owed)].cmd, effect);
            var b := Ran(a, s, |steps|, effect, ok);
            Known(b, After(s, e), steps + if e == None then [] else [e.value]) && Onward(a, b)
  {
    var r := a.owed[Due(a.owed)];
    var e, b := StepOf(r.cmd, effect), Ran(a, s, |steps|, effect, ok);
    assert r in a.owed && (a.synced.Some? ==> RequestKnown(a, r));
    RanOrdered(a, s, |steps|, effect, ok);
    RanRequests(a, s, |steps|, steps, effect, ok);
    assert a.took.Some? ==> forall q | q in a.owed && q.reply == None :: RequestKnown(a, q);
    RanOnward(a, s, |steps|, effect, ok);
    RanFreeze(a, s, steps, effect, ok);
  }

  lemma RanFreeze(a: Agent, s: State, steps: seq<Event>, effect: bool, ok: bool)
    requires Due(a.owed) < |a.owed| && Known(a, s, steps) && Alive(s, a.channel)
    requires a.synced.Some? ==> RequestKnown(a, a.owed[Due(a.owed)])
    ensures var e := StepOf(a.owed[Due(a.owed)].cmd, effect);
            var b := Ran(a, s, |steps|, effect, ok);
            var more := steps + if e == None then [] else [e.value];
            OnlyFreeze(b, more) && FreezeKnown(b, After(s, e), more)
  {
    hide RequestsKnown;
    var r := a.owed[Due(a.owed)];
    assert Ordered(a) && r.n < a.sent;
    hide Ordered;
    var e := StepOf(r.cmd, effect);
    match r.cmd {
      case AskStatus => assert steps + [] == steps;
      case AskFreeze => assert !effect ==> steps + [] == steps;
      case AskThaw => assert !effect ==> steps + [] == steps;
    }
  }

  /** Any other step of the host keeps it, too. */
  lemma StepKnown(a: Agent, s: State, steps: seq<Event>, e: Event)
    requires Known(a, s, steps) && Consistent(s) && Enabled(s, e) && e != Freeze && e != Thaw
    ensures Known(a, Apply(s, e), steps + [e])
  {
    if a.channel <= s.gen {
      FrozenStays(s, e, a.channel);
    }
    hide Apply;
    hide Enabled;
  }

  lemma FrozenStays(s: State, e: Event, gen: nat)
    requires Consistent(s) && Enabled(s, e) && e != Freeze && e != Thaw && gen <= s.gen
    ensures var t := Apply(s, e);
            && s.gen <= t.gen && (Alive(t, gen) ==> Alive(s, gen) && t.frozen == s.frozen)
            && (!Alive(t, gen) && (s.frozen ==> Alive(s, gen)) ==> !t.frozen)
  {
    match e
    case Stop =>
    case Respawn =>
    case Start =>
    case _ =>
  }

  lemma SentKnown(a: Agent, s: State, steps: seq<Event>, cmd: Command)
    requires Known(a, s, steps) && a.channel <= s.gen
    requires cmd == AskFreeze ==> a.synced.Some? && a.freezeNo == None
    requires cmd == AskStatus ==> a.freezeNo == None
    ensures Known(Sent(a, cmd), s, steps)
  {
    var b := Sent(a, cmd);
    if a.synced.Some? {
      forall r | r in b.owed ensures RequestKnown(b, r) {
        if r in a.owed {
          assert RequestKnown(a, r);
        }
      }
    }
  }

  /** The oldest reply is read. */
  lemma ReadKnown(a: Agent, s: State, steps: seq<Event>)
    requires Known(a, s, steps) && a.owed != [] && a.owed[0].reply.Some?
    ensures Known(a.(owed := a.owed[1..]), s, steps)
  {
    var b := a.(owed := a.owed[1..]);
    forall r | r in b.owed && a.synced.Some? ensures RequestKnown(b, r) {
      assert r in a.owed;
      assert RequestKnown(a, r);
    }
  }

  predicate FreeOfFreezes(owed: seq<Request>) {
    forall r | r in owed :: r.cmd != AskFreeze
  }

  /** A new program starts: if no freeze is on its way, any freeze from here on is its own. */
  function Forgotten(a: Agent, at: nat): Agent {
    a.(freezeNo := None, took := None, melted := false, synced := if FreeOfFreezes(a.owed) then Some(at) else None)
  }

  lemma ForgottenKnown(a: Agent, s: State, steps: seq<Event>)
    requires Known(a, s, steps)
    ensures Known(Forgotten(a, |steps|), s, steps)
  {
    var b := Forgotten(a, |steps|);
    forall r | r in b.owed && b.synced.Some? ensures RequestKnown(b, r) {
    }
  }

  const NOTHING_ASKED := Agent([], 0, 0, None, None, None, false)

  // ----- exchanges

  /** One request of the client: either it is not sent, or it adds its reply to those owed; an
      answer is always the oldest one. */
  predicate Exchanged(a: Agent, cmd: Command, r: Answer, from: Agent, b: Agent) {
    match r
    case NotSent => Onward(a, from) && b == from
    case TimedOut => Onward(Sent(a, cmd), from) && b == from
    case Answered(reply) =>
      && Onward(Sent(a, cmd), from) && from.owed != [] && from.owed[0].reply == Some(reply)
      && b == from.(owed := from.owed[1..]) && RequestKnown(b, from.owed[0])
  }

  /** The program's view of its freeze goes on. */
  predicate Continues(a: Agent, b: Agent) {
    && b.channel == a.channel && b.synced == a.synced && a.sent <= b.sent
    && (a.freezeNo.Some? ==> b.freezeNo == a.freezeNo)
    && (a.took.Some? ==> b.took == a.took) && (a.melted ==> b.melted)
  }

  /** The freeze took effect, and only what was asked after it is still owed. */
  predicate InStep(a: Agent) {
    a.freezeNo.Some? && a.took.Some? && forall r | r in a.owed :: r.n > a.freezeNo.value
  }

  /** The freeze alone is owed, and it is still to be carried out. */
  predicate OneFreezeOwed(a: Agent) {
    && |a.owed| == 1 && a.owed[0].cmd == AskFreeze && a.owed[0].reply == None && a.freezeNo == Some(a.owed[0].n)
    && a.took == None && !a.melted
  }

  lemma InStepOnward(a: Agent, b: Agent)
    requires Onward(a, b)
    ensures InStep(a) ==> InStep(b)
    ensures Continues(a, b)
  {
    forall r | r in b.owed && InStep(a) ensures r.n > b.freezeNo.value {
      var i :| 0 <= i < |b.owed| && b.owed[i] == r;
      assert a.owed[i] in a.owed;
    }
  }

  /** A request to an agent that owes nothing: it owes the reply exactly if it timed out. */
  lemma FirstAnswer(a: Agent, cmd: Command, r: Answer, from: Agent, b: Agent)
    requires Exchanged(a, cmd, r, from, b) && a.owed == [] && cmd != AskFreeze
    ensures Continues(a, b) && b.freezeNo == a.freezeNo
    ensures |b.owed| == if r.TimedOut? then 1 else 0
    ensures r.TimedOut? ==> b.owed[0].n < b.sent && b.owed[0].cmd == cmd
  {
  }

  /** The answer to a freeze is its own exactly if nothing was owed before. */
  lemma FreezeAnswer(a: Agent, r: Answer, from: Agent, b: Agent)
    requires Exchanged(a, AskFreeze, r, from, b) && a.freezeNo == None
    requires |a.owed| <= 1 && (|a.owed| == 1 ==> a.owed[0].n < a.sent)
    ensures Continues(a, b)
    ensures if r.NotSent? then b.freezeNo == None else b.freezeNo == Some(a.sent) && b.sent == a.sent + 1
    ensures r.Answered? ==> (b.freezeNo == Some(from.owed[0].n) <==> a.owed == [])
    ensures r.Answered? && a.owed == [] ==> b.owed == [] && (r.reply.ok ==> b.took.Some?)
  {
    if !r.NotSent? {
      var q := Sent(a, AskFreeze);
      assert q.owed == a.owed + [Request(a.sent, AskFreeze, None)] && |from.owed| == |q.owed|;
      assert from.owed[0].n == q.owed[0].n;
    }
  }

  lemma ThawAnswer(a: Agent, r: Answer, from: Agent, b: Agent)
    requires Exchanged(a, AskThaw, r, from, b) && a.freezeNo.Some? && a.freezeNo.value < a.sent
    ensures Continues(a, b)
    ensures InStep(a) ==> InStep(b) && (r.Answered? && r.reply.ok ==> b.melted)
  {
    if r.NotSent? {
      InStepOnward(a, from);
    } else {
      var q := Sent(a, AskThaw);
      InStepOnward(q, from);
      if InStep(a) {
        assert InStep(q);
        if r.Answered? {
          assert from.owed[0] in from.owed;
          assert forall x | x in b.owed :: x in from.owed;
        }
      }
    }
  }
}
