/** The programs of qemu.backup over one host: freeze, snapshot, thaw, back up, commit,
    and the recovery of a leftover overlay.  Replies of QEMU, the guest agent and LVM are
    arbitrary, and before every command anything may happen outside (see
    `DiskModel.Outside`), and the guest agent may carry out requests it was sent earlier
    (see `GuestAgent`).  A QMP command whose reply is lost may or may not have worked; it is
    the last one on its connection. */
module Backup {
  import opened DiskModel
  import opened GuestAgent
  import opened Wrappers

  datatype Plan = Plan(
    running: bool,
    fsfreeze: bool,
    snapshot: bool,
    lvm: bool,               // method 'lvm', else 'overlay'
    overlay: bool,           // an overlay path is configured
    room: nat,               // how many blocks fit in a snapshot LV
    commitTimeout: nat)      // seconds

  datatype Error =
    | BlockCommitRefused | JobQueryFailed | JobVanished | NotReady | CompleteRefused | NotFinished
    | OfflineCommitFailed | QmpUnreachable | BlockQueryFailed | RunsElsewhere | NotRemoved | LvNotRemoved

  datatype Note =
    | LvsFailed | StaleLv(e: Error) | NoOverlayPath | LeftoverOverlay(e: Error) | NoQmp
    | NoAgent | FreezeFailed | SnapshotFailed | StillFrozen
    | LvLeft(e: Error) | CommitFailed(e: Error) | OverlayLeft

  datatype Outcome = Outcome(rc: int, notes: seq<Note>)

  datatype JobReply = JobsUnknown | NoSuchJob | JobIs(ready: bool)

  /** How the host behaves: in any way, or, scripted, so that nothing happens outside, every
      connection is accepted, the client succeeds, a commit job has done its work by the time
      it is asked about, and everything works, or everything but one thing:
      the reply to the freeze or to the snapshot command does not arrive, or the agent
      carries out a status query and what follows it one request late. */
  datatype Script = Free | Willing | LoseFreeze | LoseSnapshot | LateStatus

  /** A request is carried out while its client waits, and a reply arrives in time. */
  predicate Runs(script: Script, cmd: Command) {
    script == LateStatus ==> cmd != AskStatus
  }

  predicate Hears(script: Script, cmd: Command) {
    match script
    case LoseFreeze => cmd != AskFreeze
    case LateStatus => cmd != AskStatus
    case _ => true
  }

  /** What a request does to a scripted host, and how it is answered. */
  ghost predicate Played(script: Script, cmd: Command, a: Agent, s: State, at: nat, r: Answer, b: Agent, t: State) {
    var q := Sent(a, cmd);
    var e := if Due(q.owed) < |q.owed| then StepOf(q.owed[Due(q.owed)].cmd, true) else None;
    var c := if Runs(script, cmd) && Due(q.owed) < |q.owed| then Ran(q, s, at, true, true) else q;
    && (Runs(script, cmd) && e.Some? ==> Enabled(s, e.value))
    && t == (if Runs(script, cmd) then After(s, e) else s)
    && c.owed != []
    && (if Hears(script, cmd) && c.owed[0].reply.Some?
        then r == Answered(c.owed[0].reply.value) && b == c.(owed := c.owed[1..])
        else r == TimedOut && b == c)
  }

  /** The part of the history during which the backup client read, what it read (the snapshot
      LV or the instance's disk), and what had been tried before it. */
  datatype Reading = Reading(start: nat, end: nat, lv: bool, thawTries: nat, commits: nat, connects: nat)

  datatype FileReply = FileUnknown | FileIs(overlay: bool)

  /** How the state may change while no program step is taken.  As long as the same QEMU
      process is alive, a guest on the base stays there, and a commit that was told to
      complete is pending, has merged or has died. */
  predicate Later(s: State, t: State) {
    && Kept(s, t)
    && t.snapLv == s.snapLv
    && (t.gen == s.gen && t.act != Off ==>
      && s.act != Off
      && (s.act == OnBase ==> t.act == OnBase)
      && (s.job.Job? && s.job.completing ==> (t.job.Job? && t.job.completing) || t.merged || t.aborted))
  }

  /** The guest is frozen, unless the QEMU process that froze it has died. */
  predicate HeldFrom(s: State, gen: nat) {
    s.frozen || s.act == Off || s.gen != gen
  }

  /** What also survives the program's own commands, except snapshot and unlink. */
  predicate Kept(s: State, t: State) {
    && t.file == s.file
    && s.gen <= t.gen
    && (s.merged ==> t.merged)
    && (s.aborted ==> t.aborted)
  }

  lemma AmbientStep(s: State, t: State, e: Event)
    requires Later(s, t) && Consistent(t) && Enabled(t, e) && Ambient(e)
    ensures Later(s, Apply(t, e))
  {
    match e
    case Freeze =>
    case Thaw =>
    case Write(_, _) =>
    case Stop =>
    case Respawn =>
    case JobCopy(_) =>
    case JobReady =>
    case JobPivot =>
    case JobFail =>
  }

  lemma LaterSelf(s: State)
    ensures Later(s, s)
  {
  }

  lemma LaterTwice(s: State, t: State, u: State)
    requires Later(s, t) && Later(t, u)
    ensures Later(s, u)
  {
  }

  lemma AliveStays(s: State, e: Event, gen: nat)
    requires Consistent(s) && Enabled(s, e) && Alive(s, gen) && e != Stop
    ensures Alive(Apply(s, e), gen)
  {
  }

  lemma OnwardSelf(a: Agent)
    ensures Onward(a, a)
  {
  }

  lemma PassedTwice(a: Agent, b: Agent, c: Agent)
    requires Passed(a, b) && Passed(b, c)
    ensures Passed(a, c)
  {
    hide Idle;
  }

  lemma AllDue(a: Agent)
    ensures Idle(a) <==> Due(a.owed) == |a.owed|
  {
    if Due(a.owed) < |a.owed| {
      assert a.owed[Due(a.owed)] in a.owed;
    }
  }

  lemma OnwardLength(a: Agent, b: Agent)
    requires Onward(a, b)
    ensures |b.owed| == |a.owed| && Passed(a, b)
  {
  }

  /** Carrying out a request leaves fewer to carry out. */
  lemma DueAdvances(a: Agent, s: State, at: nat, effect: bool, ok: bool)
    requires Due(a.owed) < |a.owed|
    ensures Due(Ran(a, s, at, effect, ok).owed) > Due(a.owed) && |Ran(a, s, at, effect, ok).owed| == |a.owed|
  {
    var i := Due(a.owed);
    var b := Ran(a, s, at, effect, ok);
    forall j | 0 <= j <= i ensures b.owed[j].reply.Some? {
    }
  }

  /** The guest is frozen as far as the program's freeze goes. */
  predicate FrozenAsTold(a: Agent, s: State) {
    && (a.freezeNo.Some? ==> a.channel <= s.gen)
    && (a.took.Some? ==> (s.frozen <==> !a.melted && Alive(s, a.channel)))
  }

  /** What a request on a scripted host comes to. */
  lemma PlayedAs(script: Script, cmd: Command, a: Agent, s: State, at: nat, r: Answer, from: Agent, b: Agent, t: State)
    requires Alive(s, a.channel)
    requires var q := Sent(a, cmd);
             if Runs(script, cmd) && Due(q.owed) < |q.owed|
             then from == Ran(q, s, at, true, true) && t == After(s, StepOf(q.owed[Due(q.owed)].cmd, true))
             else from == q && t == s
    requires from.owed != []
    requires if Hears(script, cmd) && from.owed[0].reply.Some?
             then r == Answered(from.owed[0].reply.value) && b == from.(owed := from.owed[1..])
             else r == TimedOut && b == from
    ensures Played(script, cmd, a, s, at, r, b, t)
  {
    hide Ran;
    hide Due;
  }

  /** Status queries and stale thaws on a scripted host. */
  lemma PlayedFirst(script: Script, cmd: Command, a: Agent, s: State, at: nat, r: Answer, b: Agent, t: State)
    requires Played(script, cmd, a, s, at, r, b, t) && a.owed == [] && cmd != AskFreeze && Alive(s, a.channel)
    ensures Alive(t, a.channel)
    ensures script == LoseFreeze ==> r.Answered?
    ensures script == LateStatus && cmd == AskStatus ==> r.TimedOut? && b == Sent(a, cmd) && t == s
  {
    assert Sent(a, cmd).owed == [Request(a.sent, cmd, None)];
    assert Due(Sent(a, cmd).owed) == 0;
  }

  lemma PlayedLost(a: Agent, s: State, at: nat, r: Answer, b: Agent, t: State)
    requires Played(LoseFreeze, AskFreeze, a, s, at, r, b, t) && a.owed == []
    ensures r.TimedOut? && b.took == Some(at)
  {
    assert Sent(a, AskFreeze).owed == [Request(a.sent, AskFreeze, None)];
    assert Due(Sent(a, AskFreeze).owed) == 0;
  }

  /** The late reply to the status query is taken for the freeze's. */
  lemma PlayedLate(a: Agent, s: State, at: nat, r: Answer, b: Agent, t: State)
    requires Played(LateStatus, AskFreeze, a, s, at, r, b, t) && a.took == None && !a.melted
    requires |a.owed| == 1 && a.owed[0].cmd == AskStatus && a.owed[0].reply == None
    ensures r.Answered? && r.reply.ok && OneFreezeOwed(b) && t == s
  {
    var q := Sent(a, AskFreeze);
    assert q.owed == [a.owed[0], Request(a.sent, AskFreeze, None)];
    assert Due(q.owed) == 0;
  }

  /** And the freeze's for the thaw's. */
  lemma PlayedThaw(a: Agent, s: State, at: nat, r: Answer, b: Agent, t: State)
    requires Played(LateStatus, AskThaw, a, s, at, r, b, t) && OneFreezeOwed(a)
    ensures r.Answered? && r.reply.ok && b.took.Some? && !b.melted
  {
    var q := Sent(a, AskThaw);
    assert q.owed == [a.owed[0], Request(a.sent, AskThaw, None)];
    assert Due(q.owed) == 0;
  }

  /** The step that a request comes down to when it works. */
  function Doing(cmd: Command): seq<Event> {
    match cmd
    case AskStatus => []
    case AskFreeze => [Freeze]
    case AskThaw => [Thaw]
  }

  lemma FirstDue(a: Agent, cmd: Command)
    ensures a.owed == [] ==> Due(Sent(a, cmd).owed) == 0 && Sent(a, cmd).owed[0].cmd == cmd
  {
    if a.owed == [] {
      assert Sent(a, cmd).owed == [Request(a.sent, cmd, None)];
    }
  }

  /** A willing agent that owes nothing carries a request out and answers it. */
  lemma PlayedWell(cmd: Command, a: Agent, s: State, at: nat, r: Answer, b: Agent, t: State)
    requires Played(Willing, cmd, a, s, at, r, b, t) && a.owed == []
    ensures r == Answered(Reply(true, s.frozen)) && b.owed == [] && b.channel == a.channel
    ensures t == if cmd == AskStatus then s else s.(frozen := cmd == AskFreeze)
  {
    assert Sent(a, cmd).owed == [Request(a.sent, cmd, None)];
    assert Due(Sent(a, cmd).owed) == 0;
  }

  /** What becomes of the disk once a commit job has done its work: every block is in the base,
      and the job is ready or, told to complete, has pivoted. */
  function Progressed(s: State): State {
    if s.job == NoJob then s
    else
      var t := s.(base := Merge(s), cow := s.cow + s.ov.Keys);
      if s.job.completing then t.(act := OnBase, job := NoJob, merged := true) else t.(job := Job(true, false))
  }

  /** The step that is, when there is nothing to copy. */
  function Progress(job: Job): seq<Event> {
    match job
    case NoJob => []
    case Job(_, completing) => [if completing then JobPivot else JobReady]
  }

  /** Some blocks of the overlay copied into the base, all but `todo`. */
  function Copied(s: State, todo: set<nat>): State {
    s.(base := s.base + (s.ov - todo), cow := s.cow + (s.ov.Keys - todo))
  }

  lemma CopyNext(s: State, todo: set<nat>, b: nat)
    requires b in todo && todo <= s.ov.Keys && s.job.Job?
    ensures Enabled(Copied(s, todo), JobCopy(b))
    ensures Apply(Copied(s, todo), JobCopy(b)) == Copied(s, todo - {b})
  {
    var t, u := Copied(s, todo), Copied(s, todo - {b});
    assert t.base[b := s.ov[b]] == u.base;
    assert t.cow + {b} == u.cow;
  }

  lemma CopyEnds(s: State)
    ensures Copied(s, s.ov.Keys) == s
    ensures Copied(s, {}) == s.(base := Merge(s), cow := s.cow + s.ov.Keys) && Drained(Copied(s, {}))
  {
    assert s.base + (s.ov - s.ov.Keys) == s.base;
    assert s.cow + (s.ov.Keys - s.ov.Keys) == s.cow;
    assert s.ov - {} == s.ov;
  }

  /** An overlay merged into the base by a commit that works. */
  function Committed(s: State): State {
    s.(base := Merge(s), cow := s.cow + s.ov.Keys, act := OnBase, job := NoJob, merged := true)
  }

  lemma MergesOnce(s: State)
    ensures Merge(s.(base := Merge(s))) == Merge(s)
    ensures s.ov == map[] ==> Merge(s) == s.base
  {
  }

  lemma CommitWorks(s: State)
    requires s.act == OnOverlay && s.job == NoJob
    ensures var t := Progressed(s.(job := Job(false, false)));
            && t.job == Job(true, false)
            && Progressed(t.(job := Job(true, true))) == Committed(s)
  {
    var t := Progressed(s.(job := Job(false, false)));
    CommitKeepsMerge(s.base, s.ov);
    assert t.cow + s.ov.Keys == t.cow;
  }

  function CountOf(steps: seq<Event>, e: Event): nat {
    if steps == [] then 0
    else CountOf(steps[..|steps| - 1], e) + if steps[|steps| - 1] == e then 1 else 0
  }

  lemma CountStep(steps: seq<Event>, e: Event)
    ensures CountOf(steps + [e], Snapshot) == CountOf(steps, Snapshot) + if e == Snapshot then 1 else 0
  {
    assert (steps + [e])[..|steps|] == steps;
  }

  /** The step that takes the snapshot a plan asks for. */
  function SnapStep(plan: Plan): Event {
    if plan.lvm then LvCreate(plan.room) else Snapshot
  }

  predicate OverlayPlan(plan: Plan) {
    plan.snapshot && !plan.lvm && plan.overlay
  }

  // ----- what a backup does when everything works

  /** A guest that runs on its base, with nothing left over, and a plan that can be met. */
  predicate AtRest(s: State, plan: Plan) {
    && s.act == OnBase && !s.file && s.snapLv == None
    && plan.running && (plan.snapshot && !plan.lvm ==> plan.overlay)
  }

  /** A stale freeze is thawed before the freeze. */
  function Freezing(plan: Plan, stale: bool): seq<Event> {
    if !plan.fsfreeze then [] else if stale then [Thaw, Freeze] else [Freeze]
  }

  function Snapping(plan: Plan): seq<Event> {
    if !plan.snapshot then [] else if plan.lvm then [LvCreate(plan.room)] else [Snapshot]
  }

  function Thawing(plan: Plan): seq<Event> {
    if plan.fsfreeze then [Thaw] else []
  }

  function Clearing(plan: Plan): seq<Event> {
    if !plan.snapshot then []
    else if plan.lvm then [LvRemove]
    else [JobStart, JobReady, JobComplete, JobPivot, Unlink]
  }

  /** The state a snapshot leaves. */
  function WithSnapshot(plan: Plan, s: State): State {
    if !plan.snapshot then s
    else if plan.lvm then s.(snapLv := Some(s.base), room := plan.room, cow := {})
    else s.(act := OnOverlay, file := true, ov := map[], merged := false, aborted := false)
  }

  /** Up to the backup itself. */
  function Steps(plan: Plan, stale: bool): seq<Event> {
    Freezing(plan, stale) + Snapping(plan) + Thawing(plan)
  }

  lemma ThawedSnapshot(plan: Plan, s: State, b: bool, c: bool)
    ensures WithSnapshot(plan, s.(frozen := b)).(frozen := c) == WithSnapshot(plan, s.(frozen := c))
  {
  }

  /** What is there to clear away after a snapshot. */
  predicate Clearable(plan: Plan, s: State) {
    if plan.lvm then s.snapLv.Some? else s.act == OnOverlay && s.job == NoJob && s.file && s.ov == map[]
  }

  lemma ClearAfterSnapshot(plan: Plan, s: State, b: bool)
    requires AtRest(s, plan) && Consistent(s) && plan.snapshot
    ensures Clearable(plan, WithSnapshot(plan, s.(frozen := b)))
  {
  }

  lemma FrozenAtRest(s: State, plan: Plan, b: bool)
    requires AtRest(s, plan)
    ensures AtRest(s.(frozen := b), plan) && s.act != Off
  {
  }

  lemma Joined(a: seq<Event>, b: seq<Event>, c: seq<Event>)
    ensures (a + b) + c == a + (b + c)
  {
  }

  class Host {
    var st: State
    var run: Run                   // everything that has happened so far
    var qmpOpen: nat               // open QMP connections (QEMU serves one client)
    var agentOpen: nat
    var ga: Agent                  // the guest agent, and what the programs have asked of it
    var slept: nat                 // milliseconds
    // what the programs have been told, by the replies they got
    ghost var froze: bool          // a freeze was confirmed
    ghost var heard: Option<nat>   // the request whose reply was taken for the freeze's
    ghost var late: bool           // a request before it had not been answered in time
    ghost var thawed: bool         // a thaw was confirmed after it
    ghost var thawTries: nat
    ghost var snapped: bool        // a snapshot was confirmed
    ghost var snapAt: nat          // its position in `run`
    ghost var client: Option<int>  // exit code of the backup client
    ghost var connects: nat        // attempts to open QMP
    ghost var commits: nat         // block-commit commands sent
    ghost var read: Reading        // the run of the backup client
    // what happened without the programs being told
    ghost var lostSnapshot: bool   // an overlay took effect, its reply did not arrive
    ghost var overlays: nat        // overlays that took effect so far
    const script: Script

    ghost predicate Recorded()
      requires run.Valid()
      reads `st, `run
    {
      Disciplined(run) && Consistent(run.First()) && Consistent(st) && st == run.Last()
    }

    ghost predicate AgentKnown()
      reads `st, `run, `ga
    {
      Known(ga, st, run.steps) && (script != Free && ga.freezeNo.Some? ==> Alive(st, ga.channel))
    }

    ghost predicate EffectsCounted()
      reads `run, `overlays
    {
      overlays == CountOf(run.steps, Snapshot)
    }

    ghost predicate Valid()
      reads `st, `run, `ga, `overlays
    {
      run.Valid() && Recorded() && AgentKnown() && EffectsCounted()
    }

    constructor (s: State, script: Script)
      requires Consistent(s)
      ensures Valid() && st == s && run == Run([], [s]) && qmpOpen == agentOpen == 0 && this.script == script
      ensures ga.owed == [] && Untold()
    {
      st, run, this.script := s, Run([], [s]), script;
      qmpOpen, agentOpen, slept := 0, 0, 0;
      ga := Agent([], 0, 0, None, None, None, false);
      froze, heard, late, thawed, thawTries, snapped, client := false, None, false, false, 0, false, None;
      snapAt, read, connects, commits := 0, Reading(0, 0, false, 0, 0, 0), 0, 0;
      lostSnapshot, overlays := false, 0;
    }

    /** What a new program finds after an earlier one was killed: its first `n` steps have
        happened, its connections are gone, and the agent may have been left with
        requests. */
    constructor AfterKill(killed: Run, n: nat, left: Agent, script: Script)
      requires killed.Valid() && Disciplined(killed) && Consistent(killed.First()) && n <= |killed.steps|
      requires Ordered(left)
      ensures Valid() && run == killed.Prefix(n) && qmpOpen == agentOpen == 0 && this.script == script
      ensures ga.owed == left.owed && ga.freezeNo == None
    {
      st, run, this.script := killed.states[n], killed.Prefix(n), script;
      qmpOpen, agentOpen, slept := 0, 0, 0;
      ga := Agent(left.owed, left.channel, left.sent, None, None, None, false);
      froze, heard, late, thawed, thawTries, snapped, client := false, None, false, false, 0, false, None;
      snapAt, read, connects, commits := 0, Reading(0, 0, false, 0, 0, 0), 0, 0;
      lostSnapshot, overlays := false, CountOf(killed.steps[..n], Snapshot);
      new;
      PrefixIsRun(killed, n);
      RunsStayConsistent(killed, n);
    }

    /** The history so far continues `before`. */
    ghost predicate Follows(before: Run)
      requires |before.states| > 0
      reads this
    {
      Valid() && before.steps <= run.steps && before.First() == run.First()
    }

    predicate Lives(gen: nat)
      reads `st
    {
      Alive(st, gen)
    }

    /** The freeze asked for took effect, and no freeze was confirmed. */
    ghost predicate LostFreeze()
      reads `ga, `froze
    {
      ga.took.Some? && !froze
    }

    /** The reply taken for the freeze's was its own. */
    ghost predicate OwnFreeze()
      reads `ga, `heard
    {
      heard.Some? && heard == ga.freezeNo
    }

    /** No freeze is on its way to the agent. */
    ghost predicate NoFreezeOwed()
      reads `ga
    {
      FreeOfFreezes(ga.owed)
    }

    /** A new program starts: nothing has been frozen or snapshot yet, and if no freeze is on
        its way to the agent, any freeze from now on is the program's own. */
    method Forget()
      requires Valid()
      modifies this`froze, this`heard, this`late, this`thawed, this`thawTries, this`snapped, this`client,
        this`lostSnapshot, this`ga
      ensures Valid() && Untold() && ga.owed == old(ga.owed) && ga.channel == old(ga.channel)
      ensures ga.synced == if old(NoFreezeOwed()) then Some(|run.steps|) else None
    {
      hide Known;
      hide Recorded;
      hide EffectsCounted;
      hide FreeOfFreezes;
      froze, heard, late, thawed, thawTries, snapped, client := false, None, false, false, 0, false, None;
      lostSnapshot := false;
      ForgottenKnown(ga, st, run.steps);
      ga := Forgotten(ga, |run.steps|);
    }

    /** Overlays that took effect are the confirmed and the lost ones. */
    ghost predicate Counted(overlays0: nat, lvm: bool)
      reads `overlays, `snapped, `lostSnapshot
    {
      && overlays == overlays0 + (if lostSnapshot || (snapped && !lvm) then 1 else 0)
      && (lostSnapshot ==> !snapped)
    }

    /** Only what the plan asks for is done. */
    ghost predicate Asked(plan: Plan)
      reads `froze, `heard, `ga, `snapped, `lostSnapshot
    {
      && (froze || heard.Some? || ga.freezeNo.Some? ==> plan.fsfreeze)
      && (snapped ==> plan.snapshot)
      && (lostSnapshot ==> plan.snapshot && !plan.lvm)
    }

    /** What the program may think of its freeze: the reply it took for the freeze's was the
        freeze's own exactly if everything it had asked before was answered in time, and
        then the freeze was not confirmed in vain. */
    ghost predicate FreezeTold()
      reads `ga, `froze, `heard, `late, `thawTries
    {
      && (froze ==> heard.Some?)
      && (heard.Some? ==> ga.freezeNo.Some? && (OwnFreeze() <==> !late))
      && (froze && !late ==> ga.took.Some?)
      && (!froze ==> thawTries == 0 && (ga.freezeNo.Some? ==> ga.sent == ga.freezeNo.value + 1))
    }

    /** What the scripts come to. */
    ghost predicate Scripted(plan: Plan, s: State)
      reads `ga, `froze, `late, `thawed, `lostSnapshot
    {
      && (script == LoseFreeze && plan.fsfreeze && !plan.snapshot && s.act != Off ==> LostFreeze())
      && (script == LateStatus && plan.fsfreeze && !plan.snapshot && s.act != Off && !s.frozen ==>
            froze && thawed && ga.took.Some? && !ga.melted)
      && (script == LoseSnapshot && OverlayPlan(plan) && !plan.fsfreeze && s.act == OnBase && !s.file ==> lostSnapshot)
    }

    ghost predicate Untold()
      reads `froze, `heard, `late, `thawed, `thawTries, `snapped, `lostSnapshot, `ga
    {
      !froze && heard == None && !late && !thawed && thawTries == 0 && !snapped && !lostSnapshot && ga.freezeNo == None
    }

    /** A backup that meets with nothing. */
    ghost predicate Smooth(plan: Plan)
      reads `st, `ga
    {
      script == Willing && AtRest(st, plan) && Idle(ga)
    }

    /** A commit was attempted after the backup: sent, or ten connections failed. */
    ghost predicate Attempted()
      reads this
    {
      commits > read.commits || connects >= read.connects + 10
    }

    /** Events since position `n` were all ambient. */
    ghost predicate OnlyAmbient(n: nat)
      reads `run
    {
      forall j | n <= j < |run.steps| :: Ambient(run.steps[j])
    }

    method Step(e: Event)
      requires run.Valid() && Recorded() && Enabled(st, e) && Allowed(st, e)
      modifies this`st, this`run
      ensures run.Valid() && Recorded() && st == Apply(old(st), e) && run.First() == old(run).First()
      ensures run.steps == old(run).steps + [e] && run.states == old(run).states + [st]
    {
      StepStaysConsistent(st, e);
      ghost var longer := Extended(run, e);
      st, run := Apply(st, e), run.Then(e);
    }

    /** One program or outside step, other than a freeze, a thaw and an overlay. */
    method Do(e: Event)
      requires Valid() && Enabled(st, e) && Allowed(st, e) && e != Freeze && e != Thaw && e != Snapshot
      requires script != Free ==> e != Stop
      modifies this`st, this`run
      ensures Follows(old(run)) && st == Apply(old(st), e)
      ensures run.steps == old(run).steps + [e] && run.states == old(run).states + [st]
    {
      hide CountOf;
      hide Known;
      CountStep(run.steps, e);
      StepKnown(ga, st, run.steps, e);
      if script != Free && ga.freezeNo.Some? {
        AliveStays(st, e, ga.channel);
      }
      Step(e);
    }

    lemma Sound()
      requires Valid()
      ensures Consistent(st)
    {
    }

    lemma AskedKnown()
      requires Valid()
      ensures if ga.freezeNo == None then ga.took == None && !ga.melted
              else
                && ga.synced.Some? && ga.freezeNo.value < ga.sent && ga.channel <= st.gen
                && (script != Free ==> Lives(ga.channel)) && (ga.sent == ga.freezeNo.value + 1 ==> !ga.melted)
    {
    }

    lemma FrozenKnown()
      requires Valid()
      ensures FrozenAsTold(ga, st)
    {
    }

    /** The agent carries out the next request, if it has one and lives. */
    method AgentRun(effect: bool, ok: bool)
      requires Valid() && (ok ==> effect)
      modifies this`st, this`run, this`ga
      ensures Follows(old(run)) && Later(old(st), st) && OnlyAmbient(|old(run).steps|)
      ensures Onward(old(ga), ga) && Passed(old(ga), ga) && st.act == old(st).act && st.gen == old(st).gen
      ensures var i := Due(old(ga).owed);
              if i == |old(ga).owed| || !Alive(old(st), old(ga).channel)
              then st == old(st) && run == old(run) && ga == old(ga)
              else
                && ga == Ran(old(ga), old(st), |old(run).steps|, effect, ok)
                && st == After(old(st), StepOf(old(ga).owed[i].cmd, effect))
                && (effect ==> run.steps == old(run).steps + Doing(old(ga).owed[i].cmd))
    {
      hide CountOf;
      hide Known;
      hide Onward;
      hide Passed;
      OnwardSelf(ga);
      OnwardLength(ga, ga);
      var i := Due(ga.owed);
      if i == |ga.owed| || !Alive(st, ga.channel) {
        return;
      }
      RanKnown(ga, st, run.steps, effect, ok);
      var e := StepOf(ga.owed[i].cmd, effect);
      var next := Ran(ga, st, |run.steps|, effect, ok);
      OnwardLength(ga, next);
      hide Ran;
      if e.Some? {
        AmbientStep(st, st, e.value);
        CountStep(run.steps, e.value);
        Step(e.value);
      } else {
        assert run.steps + [] == run.steps;
      }
      ga := next;
    }

    /** Anything may happen outside, any number of times, and the agent may carry out
        requests; on a scripted host nothing happens. */
    method Interfere()
      requires Valid()
      modifies this`st, this`run, this`ga
      ensures Follows(old(run)) && Later(old(st), st) && Onward(old(ga), ga) && Passed(old(ga), ga)
      ensures OnlyAmbient(|old(run).steps|)
      ensures script != Free ==> st == old(st) && run == old(run) && ga == old(ga)
    {
      hide AgentKnown;
      hide EffectsCounted;
      hide Onward;
      OnwardSelf(ga);
      if script != Free {
        return;
      }
      var n: nat := *;
      while n > 0
        invariant Follows(old(run)) && Later(old(st), st) && Onward(old(ga), ga) && Passed(old(ga), ga)
        invariant OnlyAmbient(|old(run).steps|)
      {
        var e: Event := *;
        var effect: bool := *;
        var ok: bool := *;
        ghost var s, a := st, ga;
        if e == Freeze || e == Thaw {
          AgentRun(effect, ok && effect);
          LaterTwice(old(st), s, st);
          OnwardTwice(old(ga), a, ga);
        } else if Outside(e) && Enabled(st, e) {
          AmbientStep(old(st), st, e);
          Do(e);
        }
        n := n - 1;
      }
    }

    method Sleep(ms: nat)
      requires Valid()
      modifies this`st, this`run, this`ga, this`slept
      ensures Follows(old(run)) && Later(old(st), st) && Onward(old(ga), ga) && slept == old(slept) + ms
      ensures OnlyAmbient(|old(run).steps|)
      ensures script != Free ==> st == old(st) && run == old(run) && ga == old(ga)
    {
      hide AgentKnown;
      hide EffectsCounted;
      slept := slept + ms;
      Interfere();
    }

    // ----- files

    method Exists() returns (yes: bool)
      requires Valid()
      modifies this`st, this`run, this`ga
      ensures Follows(old(run)) && Passed(old(ga), ga) && Later(old(st), st) && yes == st.file
      ensures OnlyAmbient(|old(run).steps|)
      ensures script != Free ==> st == old(st) && run == old(run) && ga == old(ga)
    {
      hide AgentKnown;
      hide EffectsCounted;
      Interfere();
      yes := st.file;
    }

    method Unlink() returns (ok: bool)
      requires Valid() && (st.file ==> st.merged || st.aborted)
      modifies this`st, this`run, this`ga
      ensures Follows(old(run)) && Passed(old(ga), ga) && Kept(old(st), st.(file := old(st).file))
      ensures ok ==> !st.file
      ensures st.snapLv == old(st).snapLv
      ensures script != Free ==> ga == old(ga) && (ok <==> old(st).file) && st == old(st).(file := false)
      ensures script != Free && ok ==> run.steps == old(run).steps + [Event.Unlink]
    {
      hide AgentKnown;
      hide EffectsCounted;
      Interfere();
      var works: bool := *;
      ok := st.file && (works || script != Free);
      if ok {
        Do(Event.Unlink);
      }
    }

    /** `qemu-img commit`: refused while QEMU holds the image; a failed one may have
        copied some blocks. */
    method OfflineCommit() returns (ok: bool)
      requires Valid()
      modifies this`st, this`run, this`ga
      ensures Follows(old(run)) && Passed(old(ga), ga) && Kept(old(st), st)
      ensures ok ==> st.merged && old(st).file
      ensures st.snapLv == old(st).snapLv
      ensures script != Free ==> (ok <==> old(st).act == Off && old(st).file)
      ensures script != Free && ok ==> st == old(st).(base := Merge(old(st)), merged := true,
                                                      cow := old(st).cow + old(st).ov.Keys)
    {
      hide AgentKnown;
      hide EffectsCounted;
      Interfere();
      ok := false;
      if st.act == Off && st.file {
        var n: nat := *;
        while n > 0 && script == Free
          invariant Follows(old(run)) && Passed(old(ga), ga) && Kept(old(st), st)
          invariant st.act == Off && st.file && st.snapLv == old(st).snapLv
          invariant script != Free ==> st == old(st)
        {
          var b: nat := *;
          if b in st.ov {
            Do(OfflineCopy(b));
          }
          n := n - 1;
        }
        ok := *;
        ok := ok || script != Free;
        if ok {
          Do(Event.OfflineCommit);
        }
      }
    }

    // ----- QMP

    method QmpOpen() returns (peer: Option<nat>)
      requires Valid() && qmpOpen == 0
      modifies this`st, this`run, this`ga, this`qmpOpen, this`connects
      ensures Follows(old(run)) && Passed(old(ga), ga) && Later(old(st), st) && connects == old(connects) + 1
      ensures OnlyAmbient(|old(run).steps|)
      ensures qmpOpen == if peer.Some? then 1 else 0
      ensures peer.Some? ==> peer.value <= st.gen
      ensures script != Free ==> st == old(st) && run == old(run) && ga == old(ga)
      ensures script != Free ==> peer == if st.act != Off then Some(st.gen) else None
    {
      hide AgentKnown;
      hide EffectsCounted;
      Interfere();
      peer, connects := None, connects + 1;
      var works: bool := *;
      if st.act != Off && (works || script != Free) {
        peer, qmpOpen := Some(st.gen), 1;
      }
    }

    method QmpClose()
      requires qmpOpen == 1
      modifies this`qmpOpen
      ensures qmpOpen == 0
    {
      qmpOpen := 0;
    }

    method QueryBlock(peer: nat) returns (r: FileReply)
      requires Valid() && qmpOpen == 1
      modifies this`st, this`run, this`ga
      ensures Follows(old(run)) && Passed(old(ga), ga) && Later(old(st), st)
      ensures OnlyAmbient(|old(run).steps|)
      ensures r.FileIs? ==> Lives(peer) && (r.overlay <==> st.act == OnOverlay)
      ensures script != Free ==> st == old(st) && run == old(run) && ga == old(ga) && (r.FileIs? <==> Lives(peer))
    {
      hide AgentKnown;
      hide EffectsCounted;
      Interfere();
      var works: bool := *;
      r := if Lives(peer) && (works || script != Free) then FileIs(st.act == OnOverlay) else FileUnknown;
    }

    /** The overlay takes effect; `ok` tells whether the reply arrives. */
    method DoSnapshot(ok: bool)
      requires Valid() && st.act == OnBase
      modifies this`st, this`run, this`snapAt, this`lostSnapshot, this`overlays
      ensures Follows(old(run)) && st == Apply(old(st), Snapshot) && overlays == old(overlays) + 1
      ensures run.steps == old(run).steps + [Snapshot] && run.states == old(run).states + [st]
      ensures lostSnapshot == !ok && snapAt == |old(run).steps| && run.states[snapAt] == old(st)
    {
      hide CountOf;
      hide Known;
      CountStep(run.steps, Snapshot);
      StepKnown(ga, st, run.steps, Snapshot);
      snapAt, overlays, lostSnapshot := |run.steps|, overlays + 1, !ok;
      Step(Snapshot);
    }

    method BlockdevSnapshotSync(peer: nat) returns (ok: bool)
      requires Valid() && qmpOpen == 1 && peer <= st.gen
      modifies this`st, this`run, this`ga, this`snapped, this`snapAt, this`lostSnapshot, this`overlays
      ensures Follows(old(run)) && Passed(old(ga), ga)
      ensures st.gen >= old(st).gen && st.snapLv == old(st).snapLv
      ensures snapped == ok && !(ok && lostSnapshot)
      ensures overlays == old(overlays) + if ok || lostSnapshot then 1 else 0
      ensures ok ==> snapAt == |run.steps| - 1 && |old(run).steps| <= snapAt && run.steps[snapAt] == Snapshot
      ensures ok ==> run.states[snapAt].act == OnBase && Alive(run.states[snapAt], peer)
      ensures ok ==> FrozenAsTold(ga, run.states[snapAt])
      ensures lostSnapshot ==> st.file && st.act == OnOverlay
      ensures script == LoseSnapshot && old(Lives(peer)) && old(st).act == OnBase ==> lostSnapshot
      ensures script in {LateStatus, Willing} && old(Lives(peer)) && old(st).act == OnBase ==>
                ok && run.states[snapAt] == old(st) && ga == old(ga)
      ensures script == Willing && ok ==>
                st == old(st).(act := OnOverlay, file := true, ov := map[], merged := false, aborted := false)
      ensures script == Willing && ok ==> run.steps == old(run).steps + [Snapshot]
    {
      hide AgentKnown;
      hide EffectsCounted;
      hide Recorded;
      Interfere();
      ok, lostSnapshot := false, false;
      if Lives(peer) && st.act == OnBase {
        var effect: bool := *;
        if effect || script != Free {
          ok := *;
          ok := if script == Free then ok else script != LoseSnapshot;
          FrozenKnown();
          DoSnapshot(ok);
        }
      }
      snapped := ok;
    }

    method BlockCommit(peer: nat) returns (ok: bool)
      requires Valid() && qmpOpen == 1
      modifies this`st, this`run, this`ga, this`commits
      ensures commits == old(commits) + 1
      ensures Follows(old(run)) && Passed(old(ga), ga) && Kept(old(st), st) && st.snapLv == old(st).snapLv
      ensures script != Free ==> ga == old(ga) && (ok <==> old(Lives(peer) && st.act == OnOverlay && st.job == NoJob))
      ensures script != Free ==> st == if ok then old(st).(job := Job(false, false)) else old(st)
      ensures script != Free && ok ==> run.steps == old(run).steps + [JobStart]
    {
      hide AgentKnown;
      hide EffectsCounted;
      Interfere();
      ok, commits := false, commits + 1;
      if Lives(peer) && st.act == OnOverlay && st.job == NoJob {
        var effect: bool := *;
        if effect || script != Free {
          Do(JobStart);
          ok := *;
          ok := ok || script != Free;
        }
      }
    }

    /** The commit job copies every block, and then it is ready or it pivots. */
    method GetOn()
      requires Valid() && script != Free
      modifies this`st, this`run
      ensures Follows(old(run)) && Later(old(st), st) && OnlyAmbient(|old(run).steps|)
      ensures st == Progressed(old(st))
      ensures old(st).ov == map[] ==> run.steps == old(run).steps + Progress(old(st).job)
    {
      hide AgentKnown;
      hide EffectsCounted;
      hide Recorded;
      hide Later;
      LaterSelf(st);
      MergesOnce(st);
      if st.job.Job? {
        CopyAll();
        Sound();
        var e := if st.job.completing then JobPivot else JobReady;
        AmbientStep(old(st), st, e);
        Do(e);
      }
    }

    method CopyAll()
      requires Valid() && script != Free && st.job.Job?
      modifies this`st, this`run
      ensures Follows(old(run)) && Later(old(st), st) && OnlyAmbient(|old(run).steps|)
      ensures st == old(st).(base := Merge(old(st)), cow := old(st).cow + old(st).ov.Keys) && Drained(st)
      ensures old(st).ov == map[] ==> run == old(run)
    {
      hide AgentKnown;
      hide EffectsCounted;
      LaterSelf(st);
      CopyEnds(st);
      hide Copied;
      hide Merge;
      var todo := st.ov.Keys;
      while todo != {}
        invariant Follows(old(run)) && Later(old(st), st) && OnlyAmbient(|old(run).steps|)
        invariant todo <= old(st).ov.Keys && st == Copied(old(st), todo)
        invariant old(st).ov == map[] ==> run == old(run)
        decreases todo
      {
        var b :| b in todo;
        CopyNext(old(st), todo, b);
        AmbientStep(old(st), st, JobCopy(b));
        Do(JobCopy(b));
        todo := todo - {b};
      }
    }

    method QueryBlockJobs(peer: nat) returns (r: JobReply)
      requires Valid() && qmpOpen == 1
      modifies this`st, this`run, this`ga
      ensures Follows(old(run)) && Passed(old(ga), ga) && Later(old(st), st)
      ensures OnlyAmbient(|old(run).steps|)
      ensures r == NoSuchJob ==> Lives(peer) && st.job == NoJob
      ensures r.JobIs? ==> Lives(peer) && st.job.Job? && r.ready == st.job.ready
      ensures script != Free ==> st == Progressed(old(st)) && ga == old(ga) && (r == JobsUnknown <==> !Lives(peer))
      ensures script != Free && old(st).ov == map[] ==> run.steps == old(run).steps + Progress(old(st).job)
    {
      hide AgentKnown;
      hide EffectsCounted;
      Interfere();
      if script != Free {
        GetOn();
      }
      var works: bool := *;
      r := if !Lives(peer) || !(works || script != Free) then JobsUnknown
           else if st.job == NoJob then NoSuchJob
           else JobIs(st.job.ready);
    }

    method BlockJobComplete(peer: nat) returns (ok: bool)
      requires Valid() && qmpOpen == 1
      modifies this`st, this`run, this`ga
      ensures Follows(old(run)) && Passed(old(ga), ga) && Kept(old(st), st) && st.snapLv == old(st).snapLv
      ensures ok ==> Lives(peer) && st.job == Job(true, true)
      ensures script != Free ==> ga == old(ga) && (ok <==> old(Lives(peer) && st.job.Job? && st.job.ready))
      ensures script != Free && ok ==> st == old(st).(job := Job(true, true))
      ensures script != Free && ok ==> run.steps == old(run).steps + [JobComplete]
    {
      hide AgentKnown;
      hide EffectsCounted;
      Interfere();
      ok := false;
      if Lives(peer) && st.job.Job? && st.job.ready {
        var effect: bool := *;
        if effect || script != Free {
          Do(JobComplete);
          ok := *;
          ok := ok || script != Free;
        }
      }
    }

    // ----- guest agent

    /** Connect and sync: the agent answers the sync once it has carried out everything sent
        before, and all replies up to the sync's are skipped. */
    method AgentOpen() returns (ok: bool)
      requires Valid() && agentOpen == 0 && ga.freezeNo == None
      modifies this`st, this`run, this`ga, this`agentOpen
      ensures Follows(old(run)) && Later(old(st), st) && ga.freezeNo == None
      ensures OnlyAmbient(|old(run).steps|)
      ensures agentOpen == if ok then 1 else 0
      ensures ok ==> ga.owed == [] && ga.channel <= st.gen && ga.synced.Some?
      ensures ok && script != Free ==> Lives(ga.channel)
      ensures old(ga).synced.Some? ==> ga.synced == old(ga).synced
      ensures old(st).gen <= ga.channel || !ok
      ensures script != Free && old(st).act != Off && Idle(old(ga)) ==>
                ok && st == old(st) && run == old(run) && ga.channel == st.gen
    {
      hide AgentKnown;
      hide EffectsCounted;
      hide Onward;
      Interfere();
      ok := false;
      var works: bool := *;
      if st.act == Off || !(works || script != Free) {
        return;
      }
      Drain();
      Synchronise();
      ok, agentOpen := true, 1;
    }

    /** The agent carries out everything it has been sent. */
    method Drain()
      requires Valid() && st.act != Off
      modifies this`st, this`run, this`ga
      ensures Follows(old(run)) && Later(old(st), st) && Passed(old(ga), ga) && OnlyAmbient(|old(run).steps|)
      ensures st.act != Off && st.gen == old(st).gen
      ensures Idle(old(ga)) ==> st == old(st) && run == old(run)
    {
      hide AgentKnown;
      hide EffectsCounted;
      hide Idle;
      AllDue(ga);
      while Due(ga.owed) < |ga.owed| && Alive(st, ga.channel)
        invariant Follows(old(run)) && Later(old(st), st) && Passed(old(ga), ga) && OnlyAmbient(|old(run).steps|)
        invariant st.act != Off && st.gen == old(st).gen
        invariant Idle(old(ga)) ==> st == old(st) && run == old(run) && Due(ga.owed) == |ga.owed|
        decreases |ga.owed| - Due(ga.owed)
      {
        ghost var s, a := st, ga;
        CarryOut();
        LaterTwice(old(st), s, st);
        PassedTwice(old(ga), a, ga);
      }
    }

    method CarryOut()
      requires Valid() && Due(ga.owed) < |ga.owed| && Alive(st, ga.channel)
      modifies this`st, this`run, this`ga
      ensures Follows(old(run)) && Later(old(st), st) && Passed(old(ga), ga) && OnlyAmbient(|old(run).steps|)
      ensures |ga.owed| - Due(ga.owed) < old(|ga.owed| - Due(ga.owed)) && st.act != Off && st.gen == old(st).gen
    {
      hide AgentKnown;
      hide EffectsCounted;
      hide Onward;
      hide Idle;
      hide Ran;
      hide Due;
      hide After;
      hide StepOf;
      hide Later;
      hide Passed;
      hide Recorded;
      var effect: bool := *;
      var ok: bool := *;
      DueAdvances(ga, st, |run.steps|, effect, ok && effect);
      AgentRun(effect, ok && effect);
    }

    method Synchronise()
      requires Valid() && ga.freezeNo == None
      modifies this`ga
      ensures Valid() && ga.owed == [] && ga.channel == st.gen && ga.freezeNo == None
      ensures ga.synced == if old(ga).synced.Some? then old(ga).synced else Some(|run.steps|)
    {
      ga := ga.(owed := [], channel := st.gen, synced := if ga.synced.Some? then ga.synced else Some(|run.steps|));
    }

    method AgentClose()
      requires agentOpen == 1
      modifies this`agentOpen
      ensures agentOpen == 0
    {
      agentOpen := 0;
    }

    /** Send a request and wait for a reply: the oldest one owed, whatever it is a reply to.
        `from` is what the agent owes when it is read. */
    method Execute(cmd: Command) returns (r: Answer, ghost from: Agent)
      requires Valid() && agentOpen == 1 && ga.channel <= st.gen && ga.synced.Some?
      requires cmd != AskThaw ==> ga.freezeNo == None
      requires script != Free ==> Lives(ga.channel)
      modifies this`st, this`run, this`ga
      ensures Follows(old(run)) && Later(old(st), st) && OnlyAmbient(|old(run).steps|)
      ensures Exchanged(old(ga), cmd, r, from, ga)
      ensures script != Free ==> Played(script, cmd, old(ga), old(st), |old(run).steps|, r, ga, st)
      ensures script == Willing && old(ga).owed == [] ==> run.steps == old(run).steps + Doing(cmd)
    {
      hide AgentKnown;
      hide EffectsCounted;
      hide Onward;
      hide Played;
      hide Recorded;
      hide Later;
      hide Ran;
      hide Due;
      hide After;
      hide StepOf;
      FirstDue(ga, cmd);
      var sends: bool := *;
      if script == Free && !sends {
        Interfere();
        return NotSent, ga;
      }
      Send(cmd);
      Await(cmd);
      from := ga;
      OnwardLength(Sent(old(ga), cmd), from);
      var hears: bool := *;
      hears := if script == Free then hears else Hears(script, cmd);
      r := TimedOut;
      if hears && ga.owed[0].reply.Some? {
        r := Answered(ga.owed[0].reply.value);
        ReadReply();
      }
      if script != Free {
        PlayedAs(script, cmd, old(ga), old(st), |old(run).steps|, r, from, ga, st);
      }
    }

    /** Time passes, and a scripted agent carries out a request. */
    method Await(cmd: Command)
      requires Valid()
      modifies this`st, this`run, this`ga
      ensures Follows(old(run)) && Later(old(st), st) && OnlyAmbient(|old(run).steps|) && Onward(old(ga), ga)
      ensures script != Free ==>
                var i := Due(old(ga).owed);
                if !Runs(script, cmd) || i == |old(ga).owed| || !Alive(old(st), old(ga).channel)
                then st == old(st) && run == old(run) && ga == old(ga)
                else
                  && ga == Ran(old(ga), old(st), |old(run).steps|, true, true)
                  && st == After(old(st), StepOf(old(ga).owed[i].cmd, true))
                  && run.steps == old(run).steps + Doing(old(ga).owed[i].cmd)
    {
      hide AgentKnown;
      hide EffectsCounted;
      hide Onward;
      hide Recorded;
      Interfere();
      if script != Free && Runs(script, cmd) {
        AgentRun(true, true);
      }
    }

    method Send(cmd: Command)
      requires Valid() && ga.channel <= st.gen && ga.synced.Some? && (cmd != AskThaw ==> ga.freezeNo == None)
      requires script != Free ==> Lives(ga.channel)
      modifies this`ga
      ensures Valid() && ga == Sent(old(ga), cmd)
    {
      hide Known;
      SentKnown(ga, st, run.steps, cmd);
      ga := Sent(ga, cmd);
    }

    method ReadReply()
      requires Valid() && ga.owed != [] && ga.owed[0].reply.Some?
      modifies this`ga
      ensures Valid() && ga == old(ga).(owed := old(ga).owed[1..])
      ensures ga.synced.Some? ==> RequestKnown(ga, old(ga).owed[0])
    {
      ReadKnown(ga, st, run.steps);
      assert ga.owed[0] in ga.owed;
      assert ga.synced.Some? ==> RequestKnown(ga, ga.owed[0]);
      ga := ga.(owed := ga.owed[1..]);
    }

    // ----- LVM

    method Lvs() returns (ok: bool)
      requires Valid()
      modifies this`st, this`run, this`ga
      ensures Follows(old(run)) && Passed(old(ga), ga) && Later(old(st), st)
      ensures OnlyAmbient(|old(run).steps|)
      ensures script != Free ==> ok && st == old(st) && run == old(run) && ga == old(ga)
    {
      hide AgentKnown;
      hide EffectsCounted;
      Interfere();
      ok := *;
      ok := ok || script != Free;
    }

    method LvExists() returns (yes: bool)
      requires Valid()
      modifies this`st, this`run, this`ga
      ensures Follows(old(run)) && Passed(old(ga), ga) && Later(old(st), st) && yes == st.snapLv.Some?
      ensures OnlyAmbient(|old(run).steps|)
      ensures script != Free ==> st == old(st) && run == old(run) && ga == old(ga)
    {
      hide AgentKnown;
      hide EffectsCounted;
      Interfere();
      yes := st.snapLv.Some?;
    }

    method LvRemoveCommand() returns (ok: bool)
      requires Valid()
      modifies this`st, this`run, this`ga
      ensures Follows(old(run)) && Passed(old(ga), ga) && Kept(old(st), st)
      ensures ok ==> st.snapLv == None
      ensures script != Free ==> ok && st == old(st).(snapLv := None) && ga == old(ga)
      ensures script != Free ==> run.steps == old(run).steps + [LvRemove]
    {
      hide AgentKnown;
      hide EffectsCounted;
      hide Recorded;
      Interfere();
      var effect: bool := *;
      ok := false;
      if effect || script != Free {
        Do(LvRemove);
        ok := *;
        ok := ok || script != Free;
      }
    }

    method LvCreateCommand(room: nat) returns (ok: bool)
      requires Valid()
      modifies this`st, this`run, this`ga, this`snapped, this`snapAt
      ensures Follows(old(run)) && Passed(old(ga), ga) && Kept(old(st), st)
      ensures snapped == ok
      ensures ok ==> snapAt == |run.steps| - 1 && |old(run).steps| <= snapAt && run.steps[snapAt] == LvCreate(room)
      ensures ok ==> FrozenAsTold(ga, run.states[snapAt])
      ensures script != Free ==> ga == old(ga) && (ok <==> old(st).snapLv == None)
      ensures script != Free && ok ==> st == Apply(old(st), LvCreate(room))
      ensures script != Free && ok ==> run.steps == old(run).steps + [LvCreate(room)]
    {
      hide AgentKnown;
      hide EffectsCounted;
      Interfere();
      ok := false;
      if st.snapLv == None {
        var effect: bool := *;
        if effect || script != Free {
          snapAt := |run.steps|;
          FrozenKnown();
          Do(LvCreate(room));
          ok := *;
          ok := ok || script != Free;
        }
      }
      snapped := ok;
    }

    // ----- the backup client

    /** Reads the snapshot LV or the instance's disk for as long as it takes and exits with
        any code.  The QMP socket
        and the agent must be free meanwhile. */
    method RunBackup(lv: bool) returns (rc: int)
      requires Valid() && qmpOpen == 0 && agentOpen == 0
      modifies this`st, this`run, this`ga, this`client, this`read
      ensures Follows(old(run)) && Passed(old(ga), ga) && Later(old(st), st)
      ensures OnlyAmbient(|old(run).steps|)
      ensures read == Reading(|old(run).steps|, |run.steps|, lv, thawTries, commits, connects)
      ensures client == Some(rc)
      ensures script != Free ==> rc == 0 && st == old(st) && ga == old(ga) && run == old(run)
    {
      hide Recorded;
      hide AgentKnown;
      hide EffectsCounted;
      Interfere();
      read := Reading(|old(run).steps|, |run.steps|, lv, thawTries, commits, connects);
      rc := *;
      rc := if script != Free then 0 else rc;
      client := Some(rc);
    }
  }

  // ----- qemu.backup

  /** Freeze the guest, thawing a stale freeze first.  The reply taken for the freeze's is its
      own exactly if the requests before it were answered in time. */
  method FreezeGuest(h: Host) returns (frozen: bool, notes: seq<Note>, ghost before: seq<Answer>)
    requires h.Valid() && h.agentOpen == 1 && h.Untold() && h.ga.owed == []
    requires h.ga.synced.Some? && h.ga.channel <= h.st.gen && (h.script != Free ==> h.Lives(h.ga.channel))
    modifies h`st, h`run, h`ga, h`froze, h`heard, h`late
    ensures h.Follows(old(h.run)) && Later(old(h.st), h.st) && Continues(old(h.ga), h.ga)
    ensures h.froze == frozen && h.FreezeTold() && h.thawTries == 0
    ensures h.ga.freezeNo.Some? ==> h.ga.sent == h.ga.freezeNo.value + 1
    ensures frozen && !h.late ==> h.ga.owed == []
    ensures h.script == LoseFreeze ==> h.LostFreeze()
    ensures h.script == LateStatus && !old(h.st).frozen ==> frozen && h.late && OneFreezeOwed(h.ga) && h.st == old(h.st)
    ensures before != [] && (h.late <==> TimedOut in before)
    ensures |before| == if before[0].Answered? && before[0].reply == Reply(true, true) then 2 else 1
    ensures h.script == Willing ==> frozen && h.ga.owed == [] && h.st == old(h.st).(frozen := true)
    ensures h.script == Willing ==>
              h.run.steps == old(h.run).steps + if old(h.st).frozen then [Thaw, Freeze] else [Freeze]
    ensures notes == if frozen then [] else [FreezeFailed]
  {
    hide Host.Recorded;
    hide Host.AgentKnown;
    hide Host.EffectsCounted;
    hide Later;
    notes := [];
    before := MakeSure(h);
    ghost var s, steps := h.st, h.run.steps;
    frozen := AskForFreeze(h, old(h.st));
    LaterTwice(old(h.st), s, h.st);
    Joined(old(h.run).steps, if old(h.st).frozen then [Thaw] else [], [Freeze]);
    if !frozen {
      notes := [FreezeFailed];
    }
  }

  method AskForFreeze(h: Host, ghost first: State) returns (frozen: bool)
    requires h.Valid() && h.agentOpen == 1 && h.ga.freezeNo == None && h.thawTries == 0
    requires h.ga.synced.Some? && h.ga.channel <= h.st.gen && (h.script != Free ==> h.Lives(h.ga.channel))
    requires |h.ga.owed| == (if h.late then 1 else 0) && (h.late ==> h.ga.owed[0].n < h.ga.sent)
    requires h.script == LoseFreeze ==> !h.late
    requires h.script == LateStatus && !first.frozen ==>
               h.st == first && h.late && h.ga.owed[0].cmd == AskStatus && h.ga.owed[0].reply == None
    modifies h`st, h`run, h`ga, h`froze, h`heard
    ensures h.Follows(old(h.run)) && Later(old(h.st), h.st) && Continues(old(h.ga), h.ga)
    ensures h.froze == frozen && h.FreezeTold() && h.thawTries == 0
    ensures h.ga.freezeNo.Some? ==> h.ga.sent == h.ga.freezeNo.value + 1
    ensures frozen && !h.late ==> h.ga.owed == []
    ensures h.script == LoseFreeze ==> h.LostFreeze()
    ensures h.script == LateStatus && !first.frozen ==> frozen && OneFreezeOwed(h.ga) && h.st == first
    ensures h.script == Willing && !h.late ==> frozen && h.ga.owed == [] && h.st == old(h.st).(frozen := true)
    ensures h.script == Willing && !h.late ==> h.run.steps == old(h.run).steps + [Freeze]
  {
    hide Host.Recorded;
    hide Host.AgentKnown;
    hide Host.EffectsCounted;
    hide Played;
    hide Later;
    h.AskedKnown();
    ghost var a, s, at, from := h.ga, h.st, |h.run.steps|, h.ga;
    var r;
    r, from := h.Execute(AskFreeze);
    FreezeAnswer(a, r, from, h.ga);
    frozen := r.Answered? && r.reply.ok;
    h.froze, h.heard := frozen, if r.Answered? then Some(from.owed[0].n) else None;
    if h.script == LoseFreeze {
      PlayedLost(a, s, at, r, h.ga, h.st);
    } else if h.script == LateStatus && !first.frozen {
      PlayedLate(a, s, at, r, h.ga, h.st);
    } else if h.script == Willing && a.owed == [] {
      PlayedWell(AskFreeze, a, s, at, r, h.ga, h.st);
    }
  }

  /** Ask for the status, and thaw a guest that was left frozen. */
  method MakeSure(h: Host) returns (ghost before: seq<Answer>)
    requires h.Valid() && h.agentOpen == 1 && h.Untold() && h.ga.owed == []
    requires h.ga.synced.Some? && h.ga.channel <= h.st.gen && (h.script != Free ==> h.Lives(h.ga.channel))
    modifies h`st, h`run, h`ga, h`late
    ensures h.Follows(old(h.run)) && Later(old(h.st), h.st) && Continues(old(h.ga), h.ga) && h.ga.freezeNo == None
    ensures h.ga.channel <= h.st.gen
    ensures before != [] && (h.late <==> TimedOut in before)
    ensures |before| == if before[0].Answered? && before[0].reply == Reply(true, true) then 2 else 1
    ensures h.script == Willing ==> !h.late && h.st == old(h.st).(frozen := false)
    ensures h.script == Willing ==> h.run.steps == old(h.run).steps + if old(h.st).frozen then [Thaw] else []
    ensures |h.ga.owed| == (if h.late then 1 else 0) && (h.late ==> h.ga.owed[0].n < h.ga.sent)
    ensures h.script != Free ==> h.Lives(h.ga.channel)
    ensures h.script == LoseFreeze ==> !h.late
    ensures h.script == LateStatus && !old(h.st).frozen ==>
              h.st == old(h.st) && h.late && h.ga.owed[0].cmd == AskStatus && h.ga.owed[0].reply == None
  {
    hide Host.Recorded;
    hide Host.AgentKnown;
    hide Host.EffectsCounted;
    hide Later;
    ghost var s := h.st;
    var status := FirstAsk(h, AskStatus);
    h.late, before := status.TimedOut?, [status];
    if status.Answered? && status.reply.ok && status.reply.frozen {
      s := h.st;
      var thaw := FirstAsk(h, AskThaw);
      LaterTwice(old(h.st), s, h.st);
      h.late, before := thaw.TimedOut?, [status, thaw];
    }
  }

  /** One request to an agent that owes nothing. */
  method FirstAsk(h: Host, cmd: Command) returns (r: Answer)
    requires h.Valid() && h.agentOpen == 1 && h.ga.owed == [] && h.ga.freezeNo == None && cmd != AskFreeze
    requires h.ga.synced.Some? && h.ga.channel <= h.st.gen && (h.script != Free ==> h.Lives(h.ga.channel))
    modifies h`st, h`run, h`ga
    ensures h.Follows(old(h.run)) && Later(old(h.st), h.st) && Continues(old(h.ga), h.ga) && h.ga.freezeNo == None
    ensures h.ga.channel <= h.st.gen
    ensures |h.ga.owed| == if r.TimedOut? then 1 else 0
    ensures r.TimedOut? ==> h.ga.owed[0].n < h.ga.sent && h.ga.owed[0].cmd == cmd
    ensures h.script != Free ==> h.Lives(h.ga.channel)
    ensures h.script == LoseFreeze ==> r.Answered?
    ensures h.script == LateStatus && cmd == AskStatus ==>
              r.TimedOut? && h.st == old(h.st) && h.ga.owed[0].reply == None
    ensures h.script == Willing ==> r == Answered(Reply(true, old(h.st).frozen))
    ensures h.script == Willing ==> h.st == if cmd == AskStatus then old(h.st) else old(h.st).(frozen := false)
    ensures h.script == Willing ==> h.run.steps == old(h.run).steps + Doing(cmd)
  {
    hide Host.Recorded;
    hide Host.AgentKnown;
    hide Host.EffectsCounted;
    hide Played;
    ghost var s, at, from := h.st, |h.run.steps|, h.ga;
    r, from := h.Execute(cmd);
    FirstAnswer(old(h.ga), cmd, r, from, h.ga);
    if h.script != Free {
      PlayedFirst(h.script, cmd, old(h.ga), s, at, r, h.ga, h.st);
    }
    if h.script == Willing {
      PlayedWell(cmd, old(h.ga), s, at, r, h.ga, h.st);
    }
  }

  method ThawGuest(h: Host) returns (ok: bool, notes: seq<Note>)
    requires h.Valid() && h.agentOpen == 1 && h.ga.freezeNo.Some?
    modifies h`st, h`run, h`ga, h`slept, h`thawed, h`thawTries
    ensures h.Follows(old(h.run)) && Later(old(h.st), h.st) && Continues(old(h.ga), h.ga)
    ensures h.OnlyAmbient(|old(h.run).steps|)
    ensures ok && InStep(old(h.ga)) ==> h.ga.melted
    ensures h.thawed == (old(h.thawed) || ok)
    ensures old(h.thawTries) < h.thawTries <= old(h.thawTries) + 5
    ensures !ok ==> h.thawTries == old(h.thawTries) + 5
    ensures h.slept == old(h.slept) + 1000 * (h.thawTries - old(h.thawTries) - 1)
    ensures h.script == LateStatus && OneFreezeOwed(old(h.ga)) ==> ok && h.ga.took.Some? && !h.ga.melted
    ensures h.script == Willing && old(h.ga.owed == [] && h.Lives(h.ga.channel)) ==>
              ok && h.slept == old(h.slept) && h.st == old(h.st).(frozen := false)
    ensures h.script == Willing && old(h.ga.owed == [] && h.Lives(h.ga.channel)) ==>
              h.run.steps == old(h.run).steps + [Thaw]
    ensures notes == if ok then [] else [StillFrozen]
  {
    hide Host.Recorded;
    hide Host.AgentKnown;
    hide Host.EffectsCounted;
    hide Later;
    hide InStep;
    hide OneFreezeOwed;
    hide Onward;
    hide Passed;
    LaterSelf(h.st);
    ok, notes := false, [];
    for i := 0 to 5
      invariant h.Follows(old(h.run)) && Later(old(h.st), h.st) && Continues(old(h.ga), h.ga)
      invariant h.OnlyAmbient(|old(h.run).steps|) && (InStep(old(h.ga)) ==> InStep(h.ga))
      invariant h.thawed == old(h.thawed) && h.thawTries == old(h.thawTries) + i
      invariant h.slept == old(h.slept) + (if i == 0 then 0 else 1000 * (i - 1))
      invariant i > 0 ==> !(h.script == LateStatus && OneFreezeOwed(old(h.ga)))
      invariant i > 0 ==> !(h.script == Willing && old(h.ga.owed == [] && h.Lives(h.ga.channel)))
      invariant i == 0 ==> h.ga == old(h.ga) && h.st == old(h.st) && h.run == old(h.run)
    {
      ghost var s := h.st;
      ok := TryThaw(h, i);
      LaterTwice(old(h.st), s, h.st);
      if ok {
        return;
      }
    }
    notes := [StillFrozen];
  }

  method TryThaw(h: Host, i: nat) returns (ok: bool)
    requires h.Valid() && h.agentOpen == 1 && h.ga.freezeNo.Some?
    modifies h`st, h`run, h`ga, h`slept, h`thawed, h`thawTries
    ensures h.Follows(old(h.run)) && Later(old(h.st), h.st) && Continues(old(h.ga), h.ga)
    ensures h.OnlyAmbient(|old(h.run).steps|) && h.slept == old(h.slept) + if i > 0 then 1000 else 0
    ensures InStep(old(h.ga)) ==> InStep(h.ga) && (ok ==> h.ga.melted)
    ensures h.thawed == (old(h.thawed) || ok) && h.thawTries == old(h.thawTries) + 1
    ensures h.script == LateStatus && OneFreezeOwed(old(h.ga)) && i == 0 ==> ok && h.ga.took.Some? && !h.ga.melted
    ensures h.script == Willing && old(h.ga.owed == [] && h.Lives(h.ga.channel)) ==>
              ok && h.st == old(h.st).(frozen := false)
    ensures h.script == Willing && old(h.ga.owed == [] && h.Lives(h.ga.channel)) ==>
              h.run.steps == old(h.run).steps + [Thaw]
  {
    hide Host.Recorded;
    hide Host.EffectsCounted;
    hide Played;
    hide Known;
    hide Onward;
    if i > 0 {
      h.Sleep(1000);
      InStepOnward(old(h.ga), h.ga);
    }
    h.AskedKnown();
    hide Host.AgentKnown;
    ghost var a, s, at, from := h.ga, h.st, |h.run.steps|, h.ga;
    var r;
    r, from := h.Execute(AskThaw);
    LaterTwice(old(h.st), s, h.st);
    ThawAnswer(a, r, from, h.ga);
    ok := r.Answered? && r.reply.ok;
    h.thawed, h.thawTries := h.thawed || ok, h.thawTries + 1;
    if h.script == LateStatus && OneFreezeOwed(a) {
      PlayedThaw(a, s, at, r, h.ga, h.st);
    }
    if h.script == Willing && a.owed == [] {
      PlayedWell(AskThaw, a, s, at, r, h.ga, h.st);
    }
  }

  /** Poll until the commit job is ready, at most `limit` seconds. */
  method AwaitReady(h: Host, q: nat, limit: nat) returns (err: Option<Error>, ghost last: JobReply)
    requires h.Valid() && h.qmpOpen == 1
    modifies h`st, h`run, h`ga, h`slept
    ensures h.Follows(old(h.run)) && Passed(old(h.ga), h.ga) && Kept(old(h.st), h.st) && h.st.snapLv == old(h.st).snapLv
    ensures if err == None then h.Lives(q) && h.st.job.Job? && h.st.job.ready
            else err.value in {JobQueryFailed, JobVanished, NotReady}
    // the last answer decides
    ensures err == match last
                   case JobsUnknown => Some(JobQueryFailed)
                   case NoSuchJob => Some(JobVanished)
                   case JobIs(ready) => if ready then None else Some(NotReady)
    ensures err == Some(JobVanished) ==> h.Lives(q) && h.st.job == NoJob
    ensures err == Some(NotReady) ==> h.Lives(q) && h.st.job.Job? && !h.st.job.ready
    ensures err == Some(NotReady) ==> h.slept == old(h.slept) + 1000 * limit
    ensures h.slept <= old(h.slept) + 1000 * limit
    ensures h.script != Free && old(h.Lives(q) && h.st.job == Job(false, false)) ==>
              err == None && h.st == Progressed(old(h.st)) && h.ga == old(h.ga) && h.slept == old(h.slept)
    ensures h.script != Free && old(h.Lives(q) && h.st.job == Job(false, false)) && old(h.st).ov == map[] ==>
              h.run.steps == old(h.run).steps + [JobReady]
  {
    hide Host.Recorded;
    hide Host.AgentKnown;
    hide Host.EffectsCounted;
    var waited := 0;
    while true
      invariant h.Follows(old(h.run)) && Passed(old(h.ga), h.ga)
      invariant Kept(old(h.st), h.st) && h.st.snapLv == old(h.st).snapLv
      invariant waited <= limit && h.slept == old(h.slept) + 1000 * waited
      invariant waited == 0 ==> h.st == old(h.st) && h.run == old(h.run) && h.ga == old(h.ga)
      invariant waited > 0 ==> !(h.script != Free && old(h.Lives(q) && h.st.job == Job(false, false)))
      decreases limit - waited
    {
      var s := h.QueryBlockJobs(q);
      match s {
        case JobsUnknown => return Some(JobQueryFailed), s;
        case NoSuchJob => return Some(JobVanished), s;
        case JobIs(ready) =>
          if ready {
            return None, s;
          }
      }
      waited := waited + 1;
      if waited > limit {
        return Some(NotReady), s;
      }
      h.Sleep(1000);
    }
  }

  /** Poll until the completing job is gone, whatever became of it. */
  method AwaitPivot(h: Host, q: nat) returns (err: Option<Error>, ghost last: JobReply)
    requires h.Valid() && h.qmpOpen == 1 && h.Lives(q) && h.st.job == Job(true, true)
    modifies h`st, h`run, h`ga, h`slept
    ensures h.Follows(old(h.run)) && Passed(old(h.ga), h.ga) && Kept(old(h.st), h.st) && h.st.snapLv == old(h.st).snapLv
    ensures err == None ==> (h.st.merged || h.st.aborted) && h.Lives(q) && h.st.job == NoJob
    ensures err == match last
                   case JobsUnknown => Some(JobQueryFailed)
                   case NoSuchJob => None
                   case JobIs(_) => Some(NotFinished)
    ensures err == Some(NotFinished) ==> h.Lives(q) && h.st.job.Job? && h.slept == old(h.slept) + 601000
    ensures h.slept <= old(h.slept) + 601000
    ensures h.script != Free ==>
              err == None && h.st == Progressed(old(h.st)) && h.ga == old(h.ga) && h.slept == old(h.slept)
    ensures h.script != Free && old(h.st).ov == map[] ==> h.run.steps == old(h.run).steps + [JobPivot]
  {
    hide Host.Recorded;
    hide Host.AgentKnown;
    hide Host.EffectsCounted;
    hide Merge;
    var waited := 0;
    while true
      invariant h.Follows(old(h.run)) && Passed(old(h.ga), h.ga)
      invariant Kept(old(h.st), h.st) && h.st.snapLv == old(h.st).snapLv
      invariant h.Lives(q) ==> (h.st.job.Job? && h.st.job.completing) || h.st.merged || h.st.aborted
      invariant waited <= 601 && h.slept == old(h.slept) + 1000 * waited
      invariant waited == 0 ==> h.st == old(h.st) && h.run == old(h.run) && h.ga == old(h.ga)
      invariant waited > 0 ==> h.script == Free
      decreases 601 - waited
    {
      var s := h.QueryBlockJobs(q);
      match s {
        case JobsUnknown => return Some(JobQueryFailed), s;
        case NoSuchJob => return None, s;
        case JobIs(_) =>
      }
      if waited > 600 {
        return Some(NotFinished), s;
      }
      h.Sleep(1000);
      waited := waited + 1;
    }
  }

  /** Merge the overlay back and pivot to the base.  Success means that every block of
      the overlay is in the base, unless the job died after it was told to complete: its
      disappearance is all that is looked at. */
  method Commit(h: Host, q: nat, plan: Plan) returns (err: Option<Error>)
    requires h.Valid() && h.qmpOpen == 1
    modifies h`st, h`run, h`ga, h`slept, h`commits
    ensures h.Follows(old(h.run)) && Passed(old(h.ga), h.ga) && Kept(old(h.st), h.st) && h.st.snapLv == old(h.st).snapLv
    ensures err == None ==> h.st.merged || h.st.aborted
    ensures err.Some? ==> err.value in {BlockCommitRefused, JobQueryFailed, JobVanished, NotReady, CompleteRefused,
                                        NotFinished}
    ensures h.commits == old(h.commits) + 1
    ensures h.slept <= old(h.slept) + 1000 * (plan.commitTimeout + 601)
    ensures h.script != Free ==> h.slept == old(h.slept) && h.ga == old(h.ga)
    ensures h.script != Free ==>
              if old(h.Lives(q) && h.st.act == OnOverlay && h.st.job == NoJob)
              then err == None && h.st == Committed(old(h.st))
              else err == Some(BlockCommitRefused) && h.st == old(h.st)
    ensures h.script != Free && old(h.st).ov == map[] && err == None ==>
              h.run.steps == old(h.run).steps + [JobStart, JobReady, JobComplete, JobPivot]
  {
    hide Host.Recorded;
    hide Host.AgentKnown;
    hide Host.EffectsCounted;
    hide Merge;
    var ok := h.BlockCommit(q);
    if !ok {
      return Some(BlockCommitRefused);
    }
    ghost var last;
    err, last := AwaitReady(h, q, plan.commitTimeout);
    if err != None {
      return err;
    }
    ok := h.BlockJobComplete(q);
    if !ok {
      return Some(CompleteRefused);
    }
    err, last := AwaitPivot(h, q);
    if h.script != Free {
      CommitWorks(old(h.st));
    }
  }

  method RemoveSnapshotLv(h: Host) returns (err: Option<Error>)
    requires h.Valid()
    modifies h`st, h`run, h`ga, h`slept
    ensures h.Follows(old(h.run)) && Passed(old(h.ga), h.ga) && Kept(old(h.st), h.st)
    ensures if err == None then h.st.snapLv == None else err == Some(LvNotRemoved)
    ensures err != None ==> old(h.st).snapLv.Some? && h.slept == old(h.slept) + 4000
    ensures h.slept <= old(h.slept) + 4000
    ensures h.script != Free ==> err == None && h.slept == old(h.slept) && h.ga == old(h.ga)
    ensures h.script != Free ==> h.st == old(h.st).(snapLv := None)
    ensures h.script != Free && old(h.st).snapLv.Some? ==> h.run.steps == old(h.run).steps + [LvRemove]
    ensures h.script != Free && old(h.st).snapLv == None ==> h.run == old(h.run)
  {
    hide Host.Recorded;
    hide Host.AgentKnown;
    hide Host.EffectsCounted;
    var there := h.LvExists();
    if !there {
      return None;
    }
    for i := 0 to 3
      invariant h.Follows(old(h.run)) && Passed(old(h.ga), h.ga) && Kept(old(h.st), h.st)
      invariant h.slept == old(h.slept) + (if i == 0 then 0 else 2000 * (i - 1))
      invariant if i == 0 then h.script != Free ==> h.st == old(h.st) && h.run == old(h.run) && h.ga == old(h.ga)
                else h.script == Free
    {
      if i > 0 {
        h.Sleep(2000);
      }
      var ok := h.LvRemoveCommand();
      if ok {
        return None;
      }
    }
    return Some(LvNotRemoved);
  }

  /** Why a leftover overlay is not recovered, on a host where commands work: the instance is
      not what the plan takes it for, the guest runs on its base, or a commit is under way. */
  function Refusal(plan: Plan, s: State): Option<Error> {
    if !plan.overlay || !s.file then None
    else if !plan.running then if s.act == Off then None else Some(OfflineCommitFailed)
    else match s.act
      case Off => Some(QmpUnreachable)
      case OnBase => Some(RunsElsewhere)
      case OnOverlay => if s.job == NoJob then None else Some(BlockCommitRefused)
  }

  /** The overlay is merged and gone; a guest that ran on it runs on the base. */
  function Recovered(plan: Plan, s: State): State {
    var t := Committed(s).(file := false);
    if plan.running then t else t.(act := s.act, job := s.job)
  }

  /** Commit the overlay that a running guest still uses. */
  method RecoverOnline(h: Host, plan: Plan) returns (err: Option<Error>)
    requires h.Valid() && h.qmpOpen == 0 && plan.overlay && plan.running && h.st.file
    modifies h`st, h`run, h`ga, h`slept, h`qmpOpen, h`connects, h`commits
    ensures h.Follows(old(h.run)) && Passed(old(h.ga), h.ga) && Kept(old(h.st), h.st) && h.qmpOpen == 0
    ensures h.st.snapLv == old(h.st).snapLv && h.connects == old(h.connects) + 1
    ensures err == None ==> h.st.merged || h.st.aborted
    ensures err == Some(RunsElsewhere) ==> h.st.act != OnOverlay
    ensures err !in {Some(OfflineCommitFailed), Some(NotRemoved)}
    ensures h.commits == old(h.commits) +
              if err in {Some(QmpUnreachable), Some(BlockQueryFailed), Some(RunsElsewhere)} then 0 else 1
    ensures h.slept <= old(h.slept) + 1000 * (plan.commitTimeout + 601)
    ensures h.script != Free ==> err == Refusal(plan, old(h.st)) && h.slept == old(h.slept)
    ensures h.script != Free && err == None ==> h.st == Committed(old(h.st))
  {
    hide Host.Recorded;
    hide Host.AgentKnown;
    hide Host.EffectsCounted;
    hide Merge;
    var q := h.QmpOpen();
    if q == None {
      return Some(QmpUnreachable);
    }
    var a := h.QueryBlock(q.value);
    if a == FileUnknown {
      h.QmpClose();
      return Some(BlockQueryFailed);
    }
    if !a.overlay {
      h.QmpClose();
      return Some(RunsElsewhere);
    }
    err := Commit(h, q.value, plan);
    h.QmpClose();
  }

  /** Merge a leftover overlay into the base; on success none is left. */
  method Recover(h: Host, plan: Plan) returns (err: Option<Error>)
    requires h.Valid() && h.qmpOpen == 0
    modifies h`st, h`run, h`ga, h`slept, h`qmpOpen, h`connects, h`commits
    ensures h.Follows(old(h.run)) && Passed(old(h.ga), h.ga) && old(h.st).gen <= h.st.gen && h.qmpOpen == 0
    ensures err == None && plan.overlay ==> !h.st.file
    ensures old(h.st).file == h.st.file || (old(h.st).file && (h.st.merged || h.st.aborted))
    ensures err == None && old(h.st).file && plan.overlay ==> h.st.merged || h.st.aborted
    ensures h.slept <= old(h.slept) + 1000 * (plan.commitTimeout + 601)
    ensures h.st.snapLv == old(h.st).snapLv && old(h.connects) <= h.connects
    // why it fails: `RunsElsewhere` only for a guest that does not run on the overlay
    ensures err != None ==> plan.overlay && old(h.st).file
    ensures err == Some(RunsElsewhere) ==> plan.running && h.st.act != OnOverlay
    ensures err == Some(OfflineCommitFailed) ==> !plan.running
    ensures h.commits == old(h.commits) +
              if plan.overlay && old(h.st).file && plan.running &&
                 err !in {Some(QmpUnreachable), Some(BlockQueryFailed), Some(RunsElsewhere)} then 1 else 0
    // on a host where commands work, and what the recovery leaves there
    ensures h.script != Free ==> err == Refusal(plan, old(h.st)) && h.slept == old(h.slept)
    ensures h.script != Free && err == None ==>
              h.st == if plan.overlay && old(h.st).file then Recovered(plan, old(h.st)) else old(h.st)
  {
    hide Host.Recorded;
    hide Host.AgentKnown;
    hide Host.EffectsCounted;
    hide Merge;
    if !plan.overlay {
      return None;
    }
    var leftover := h.Exists();
    if !leftover {
      return None;
    }
    if !plan.running {
      var ok := h.OfflineCommit();
      if !ok {
        return Some(OfflineCommitFailed);
      }
    } else {
      err := RecoverOnline(h, plan);
      if err != None {
        return err;
      }
    }
    var gone := h.Unlink();
    if !gone {
      return Some(NotRemoved);
    }
    return None;
  }

  /** The exit code: the backup's own, or 3 when a confirmed overlay was not committed,
      or 4 when a confirmed freeze was not thawed. */
  function Verdict(client: int, uncommitted: bool, stillFrozen: bool): int {
    if client != 0 then client
    else if uncommitted then 3
    else if stillFrozen then 4
    else 0
  }

  predicate CommitNoted(notes: seq<Note>) {
    exists n | n in notes :: n.CommitFailed?
  }

  lemma NotedInParts(a: seq<Note>, b: seq<Note>)
    ensures CommitNoted(a + b) <==> CommitNoted(a) || CommitNoted(b)
  {
    if CommitNoted(a) {
      var n :| n in a && n.CommitFailed?;
      assert n in a + b;
    }
    if CommitNoted(b) {
      var n :| n in b && n.CommitFailed?;
      assert n in a + b;
    }
  }

  /** Step `k` takes the snapshot: an overlay under a guest that runs on its base; of a
      frozen guest if it is `held` by a freeze of process `gen`. */
  ghost predicate Taken(r: Run, k: nat, e: Event, held: bool, gen: nat) {
    && k < |r.steps| < |r.states|
    && r.steps[k] == e
    && (e == Snapshot ==> r.states[k].act == OnBase)
    && (held ==> if e == Snapshot then r.states[k].frozen else HeldFrom(r.states[k], gen))
  }

  lemma TakenLasts(r: Run, q: Run, k: nat, e: Event, held: bool, gen: nat)
    requires Taken(r, k, e, held, gen)
    requires r.Valid() && q.Valid() && r.steps <= q.steps && r.First() == q.First()
    ensures Taken(q, k, e, held, gen)
  {
    StatesFollowSteps(r, q, k);
  }

  /** Between the confirmed snapshot and the end of the read, nothing but ambient events
      happened; a held guest was frozen when the snapshot was taken. */
  ghost predicate PointInTime(r: Run, snapAt: nat, readFrom: nat, readTo: nat, e: Event, held: bool, gen: nat) {
    && r.Valid()
    && snapAt < readFrom <= readTo <= |r.steps|
    && Taken(r, snapAt, e, held, gen)
    && forall j | snapAt < j < readTo :: Ambient(r.steps[j])
  }

  lemma PointInTimeLasts(r: Run, q: Run, snapAt: nat, readFrom: nat, readTo: nat, e: Event, held: bool, gen: nat)
    requires PointInTime(r, snapAt, readFrom, readTo, e, held, gen)
    requires q.Valid() && r.steps <= q.steps && r.First() == q.First()
    ensures PointInTime(q, snapAt, readFrom, readTo, e, held, gen)
  {
    TakenLasts(r, q, snapAt, e, held, gen);
  }

  /** From the snapshot to the end of the read, what the client reads is the guest's disk at
      the instant of the snapshot if and only if nothing spoils it. */
  lemma ImageReadIsSnapshotIff(r: Run, snapAt: nat, readFrom: nat, readTo: nat, plan: Plan, held: bool, gen: nat)
    requires PointInTime(r, snapAt, readFrom, readTo, SnapStep(plan), held, gen)
    requires Consistent(r.First()) && r.states[snapAt].base == r.states[snapAt].guest
    ensures (forall i | snapAt < i <= readTo :: Image(r.states[i], plan.lvm) == Some(r.states[snapAt].guest))
       <==> Unspoilt(r, snapAt, readTo)
  {
    ImageIsPointInTimeIff(r, snapAt, readTo);
  }

  /** From end to end: in a sheltering environment an overlay backup reads the guest's disk
      at the instant of the snapshot, and so does an LVM backup exactly while the blocks
      rewritten fit in the snapshot LV. */
  lemma ShelteredReadIsSnapshot(r: Run, snapAt: nat, readFrom: nat, readTo: nat, plan: Plan, held: bool, gen: nat)
    requires PointInTime(r, snapAt, readFrom, readTo, SnapStep(plan), held, gen)
    requires Clean(r.First()) && Disciplined(r) && AllSheltered(r)
    requires plan.lvm ==> !r.states[snapAt].file     // LVM disks have no overlay
    ensures (forall i | snapAt < i <= readTo :: Image(r.states[i], plan.lvm) == Some(r.states[snapAt].guest))
       <==> (plan.lvm ==> |Rewritten(r, snapAt + 1, readTo)| <= plan.room)
  {
    if plan.lvm {
      ShelteredLvIsPointInTimeIff(r, snapAt, readTo);
    } else {
      ShelteredImageIsPointInTime(r, snapAt, readTo);
    }
  }

  /** Make way for a snapshot: remove a stale one, recover a leftover overlay. */
  method PrepareSnapshot(h: Host, plan: Plan) returns (q: Option<nat>, origin: bool, notes: seq<Note>)
    requires h.Valid() && h.qmpOpen == 0
    modifies h`st, h`run, h`ga, h`slept, h`qmpOpen, h`connects, h`commits
    ensures h.Follows(old(h.run)) && Passed(old(h.ga), h.ga) && old(h.st).gen <= h.st.gen
    ensures h.qmpOpen == if q.Some? then 1 else 0
    ensures q.Some? ==> plan.snapshot && !plan.lvm && plan.overlay && q.value <= h.st.gen && !h.st.file
    ensures origin ==> plan.snapshot && plan.lvm && h.st.snapLv == None
    ensures old(h.commits) <= h.commits && old(h.connects) <= h.connects
    ensures !CommitNoted(notes) && (notes == [] <==> (plan.snapshot ==> q.Some? || origin))
    ensures !plan.snapshot ==> h.st == old(h.st) && h.ga == old(h.ga) && h.run == old(h.run)
    ensures h.script != Free && plan.snapshot && !plan.lvm && plan.overlay ==>
              old(h.st).act == OnBase && !old(h.st).file ==>
                h.st == old(h.st) && h.ga == old(h.ga) && h.run == old(h.run) && q == Some(h.st.gen)
    // a leftover overlay is recovered first, where that works
    ensures h.script != Free && plan.snapshot && !plan.lvm && plan.overlay && plan.running && old(h.st).file ==>
              match Refusal(plan, old(h.st))
              case None => q == Some(h.st.gen) && h.st == Recovered(plan, old(h.st))
              case Some(e) => notes == [LeftoverOverlay(e)]
    // why a snapshot is skipped
    ensures notes == [NoOverlayPath] <==> plan.snapshot && !plan.lvm && !plan.overlay
    ensures plan.snapshot && plan.lvm && notes != [] ==>
              notes == [LvsFailed] || (notes == [StaleLv(LvNotRemoved)] && old(h.st).snapLv.Some?)
    ensures plan.snapshot && !plan.lvm && plan.overlay && notes != [] ==>
              if notes[0].LeftoverOverlay? then old(h.st).file else notes == [NoQmp] && h.connects > old(h.connects)
    ensures old(h.Smooth(plan)) ==>
              && h.st == old(h.st) && h.ga == old(h.ga) && h.run == old(h.run) && h.slept == old(h.slept)
              && (q.Some? <==> plan.snapshot && !plan.lvm) && (q.Some? ==> q == Some(h.st.gen))
              && (origin <==> plan.snapshot && plan.lvm)
    ensures h.slept <= old(h.slept) + 4000 + 1000 * (plan.commitTimeout + 601)
  {
    hide Host.Recorded;
    hide Host.AgentKnown;
    hide Host.EffectsCounted;
    q, origin, notes := None, false, [];
    if plan.snapshot && plan.lvm {
      origin := h.Lvs();
      if !origin {
        notes := [LvsFailed];
      } else {
        var err := RemoveSnapshotLv(h);
        if err != None {
          notes, origin := [StaleLv(err.value)], false;
        }
      }
    } else if plan.snapshot {
      if !plan.overlay {
        notes := [NoOverlayPath];
      } else {
        var err: Option<Error> := None;
        var leftover := h.Exists();
        if leftover {
          err := Recover(h, plan);
        }
        if err != None {
          notes := [LeftoverOverlay(err.value)];
        } else {
          q := h.QmpOpen();
          if q == None {
            notes := [NoQmp];
          }
        }
      }
    }
  }

  method OpenAndFreeze(h: Host, plan: Plan) returns (agent: bool, frozen: bool, notes: seq<Note>)
    requires h.Valid() && h.agentOpen == 0 && h.Untold()
    modifies h`st, h`run, h`ga, h`agentOpen, h`froze, h`heard, h`late
    ensures h.Follows(old(h.run)) && Later(old(h.st), h.st)
    ensures h.agentOpen == if agent then 1 else 0
    ensures h.froze == frozen && h.FreezeTold() && h.thawTries == 0 && (frozen ==> agent)
    ensures frozen && !h.late ==> h.ga.owed == [] && h.ga.sent == h.ga.freezeNo.value + 1
    ensures frozen && !h.late ==> InStep(h.ga) && h.ga.took.Some?
    ensures old(h.st).gen <= h.st.gen
    ensures h.froze || h.heard.Some? || h.ga.freezeNo.Some? ==> plan.fsfreeze && old(h.st).gen <= h.ga.channel
    ensures old(h.ga).synced.Some? ==> h.ga.synced == old(h.ga).synced
    ensures !plan.fsfreeze ==> h.st == old(h.st) && h.ga == old(h.ga) && h.run == old(h.run)
    ensures plan.fsfreeze && old(h.st).act != Off && Idle(old(h.ga)) ==>
              && (h.script == LoseFreeze ==> h.LostFreeze())
              && (h.script == LateStatus && !old(h.st).frozen ==>
                    frozen && h.late && OneFreezeOwed(h.ga) && h.st == old(h.st))
    ensures notes == if plan.fsfreeze && !frozen then [if agent then FreezeFailed else NoAgent] else []
    ensures !CommitNoted(notes) && (notes == [] <==> (plan.fsfreeze ==> frozen))
    ensures h.script == Willing && old(h.st).act != Off && Idle(old(h.ga)) ==>
              && frozen == plan.fsfreeze && (frozen ==> h.ga.owed == [] && h.Lives(h.ga.channel))
              && h.st == old(h.st).(frozen := plan.fsfreeze || old(h.st).frozen)
              && h.run.steps == old(h.run).steps + Freezing(plan, old(h.st).frozen)
  {
    hide Host.Recorded;
    hide Host.AgentKnown;
    hide Host.EffectsCounted;
    agent, frozen, notes := false, false, [];
    if plan.fsfreeze {
      agent := h.AgentOpen();
      if !agent {
        notes := [NoAgent];
      } else {
        ghost var s := h.st;
        ghost var before;
        frozen, notes, before := FreezeGuest(h);
        LaterTwice(old(h.st), s, h.st);
      }
    }
  }

  method TakeSnapshot(h: Host, plan: Plan, q: Option<nat>, origin: bool) returns (snapped: bool, notes: seq<Note>)
    requires h.Valid() && h.qmpOpen == (if q.Some? then 1 else 0) && !h.snapped && !h.lostSnapshot
    requires (q.Some? ==> !plan.lvm && !origin && q.value <= h.st.gen) && (origin ==> plan.lvm)
    modifies h`st, h`run, h`ga, h`snapped, h`snapAt, h`lostSnapshot, h`overlays
    ensures h.Follows(old(h.run)) && Passed(old(h.ga), h.ga) && old(h.st).gen <= h.st.gen
    ensures h.overlays == old(h.overlays) + if h.lostSnapshot || (snapped && !origin) then 1 else 0
    ensures h.lostSnapshot ==> !snapped && q.Some? && h.st.file
    ensures q == None && !origin ==> h.st == old(h.st) && h.ga == old(h.ga) && h.run == old(h.run)
    ensures (old(h.FreezeTold()) ==> h.FreezeTold()) && (old(h.ga.owed == []) ==> h.ga == old(h.ga))
    ensures h.snapped == snapped && (snapped ==> origin || q.Some?)
    ensures snapped ==> h.snapAt == |h.run.steps| - 1 && |old(h.run).steps| <= h.snapAt
    ensures snapped ==> h.run.steps[h.snapAt] == SnapStep(plan) && FrozenAsTold(h.ga, h.run.states[h.snapAt])
    ensures q == Some(old(h.st).gen) && old(h.st).act == OnBase ==>
              && (h.script == LoseSnapshot ==> h.lostSnapshot)
              && (h.script == LateStatus ==> snapped && h.run.states[h.snapAt] == old(h.st) && h.ga == old(h.ga))
    ensures snapped && !origin ==>
              h.run.states[h.snapAt].act == OnBase && Alive(h.run.states[h.snapAt], q.value)
    ensures notes == if (origin || q.Some?) && !snapped then [SnapshotFailed] else []
    ensures !CommitNoted(notes) && (notes == [] <==> (origin || q.Some? ==> snapped))
    ensures h.script == Willing && old(AtRest(h.st, plan)) && (q.Some? ==> q == Some(old(h.st).gen)) ==>
              && snapped == (origin || q.Some?) && h.ga == old(h.ga) && (snapped ==> h.Lives(old(h.st).gen))
              && (snapped == plan.snapshot ==>
                    h.st == WithSnapshot(plan, old(h.st)) && h.run.steps == old(h.run).steps + Snapping(plan))
  {
    hide Host.Recorded;
    hide Host.AgentKnown;
    hide Host.EffectsCounted;
    snapped, notes := false, [];
    if origin {
      snapped := h.LvCreateCommand(plan.room);
      if !snapped {
        notes := [SnapshotFailed];
      }
    } else if q.Some? {
      snapped := h.BlockdevSnapshotSync(q.value);
      if !snapped {
        notes := [SnapshotFailed];
      }
    }
  }

  /** Connect again and commit the overlay, also when the backup failed. */
  method CommitAfterBackup(h: Host, plan: Plan) returns (err: Option<Error>, notes: seq<Note>)
    requires h.Valid() && h.qmpOpen == 0
    modifies h`st, h`run, h`ga, h`slept, h`qmpOpen, h`connects, h`commits
    ensures h.Follows(old(h.run)) && Passed(old(h.ga), h.ga) && h.qmpOpen == 0
    ensures err == None ==> h.st.merged || h.st.aborted
    ensures CommitNoted(notes) <==> err != None
    ensures if err.Some? then notes == [CommitFailed(err.value)] else notes == [] || notes == [OverlayLeft]
    ensures notes == [] ==> !h.st.file
    ensures h.commits == old(h.commits) + 1 || h.connects == old(h.connects) + 10
    ensures h.commits == old(h.commits) ==> err == Some(QmpUnreachable) && h.slept == old(h.slept) + 27000
    ensures h.script != Free && old(h.st.act == OnOverlay && h.st.job == NoJob && h.st.file) ==>
              && err == None && notes == [] && h.slept == old(h.slept)
              && h.st == Committed(old(h.st)).(file := false)
    ensures h.script != Free && old(h.st.act == OnOverlay && h.st.job == NoJob && h.st.file && h.st.ov == map[]) ==>
              h.run.steps == old(h.run).steps + [JobStart, JobReady, JobComplete, JobPivot, Unlink]
    ensures h.slept <= old(h.slept) + 27000 + 1000 * (plan.commitTimeout + 601)
  {
    hide Host.Recorded;
    hide Host.AgentKnown;
    hide Host.EffectsCounted;
    err, notes := None, [];
    var q: Option<nat> := None;
    for i := 0 to 10
      invariant h.Follows(old(h.run)) && Passed(old(h.ga), h.ga) && h.qmpOpen == 0 && q == None
      invariant i > 0 ==> err == Some(QmpUnreachable)
      invariant h.script != Free ==> h.st == old(h.st) && h.run == old(h.run) && h.ga == old(h.ga)
      invariant i > 0 && h.script != Free ==> h.st.act == Off
      invariant h.connects == old(h.connects) + i && h.commits == old(h.commits)
      invariant h.slept == old(h.slept) + (if i == 0 then 0 else 3000 * (i - 1))
    {
      if i > 0 {
        h.Sleep(3000);
      }
      q := h.QmpOpen();
      if q.Some? {
        break;
      }
      err := Some(QmpUnreachable);
    }
    hide Merge;
    if q.Some? {
      err := Commit(h, q.value, plan);
    }
    if err != None {
      notes := [CommitFailed(err.value)];
      assert notes[0] in notes;
    } else {
      var gone := h.Unlink();
      if !gone {
        notes := [OverlayLeft];
      }
    }
    if q.Some? {
      h.QmpClose();
    }
  }

  method ThawAndClose(h: Host, q: Option<nat>, agent: bool, frozen: bool) returns (failed: bool, notes: seq<Note>)
    requires h.Valid() && h.froze == frozen && (frozen ==> agent && !h.thawed && h.thawTries == 0)
    requires h.FreezeTold()
    requires h.qmpOpen == (if q.Some? then 1 else 0) && h.agentOpen == (if agent then 1 else 0)
    modifies h`st, h`run, h`ga, h`slept, h`qmpOpen, h`agentOpen, h`thawed, h`thawTries
    ensures h.Follows(old(h.run)) && h.OnlyAmbient(|old(h.run).steps|) && h.qmpOpen == 0 && h.agentOpen == 0
    ensures h.FreezeTold() && Continues(old(h.ga), h.ga) && h.ga.freezeNo == old(h.ga).freezeNo
    ensures failed == (frozen && !h.thawed)
    ensures !frozen ==> h.st == old(h.st) && h.ga == old(h.ga) && h.run == old(h.run)
    ensures frozen && h.thawed && InStep(old(h.ga)) ==> h.ga.melted
    ensures frozen ==> 1 <= h.thawTries <= 5 && (h.thawed || h.thawTries == 5)
    ensures h.script == LateStatus && frozen && OneFreezeOwed(old(h.ga)) ==>
              h.thawed && h.ga.took.Some? && !h.ga.melted
    ensures !CommitNoted(notes) && (notes == [] <==> !failed) && h.slept <= old(h.slept) + 4000
    ensures notes == if failed then [StillFrozen] else []
    ensures h.script == Willing && (frozen ==> old(h.ga.owed == [] && h.Lives(h.ga.channel))) ==>
              && !failed && h.slept == old(h.slept)
              && h.st == old(h.st).(frozen := !frozen && old(h.st).frozen)
              && h.run.steps == old(h.run).steps + if frozen then [Thaw] else []
  {
    hide Host.Recorded;
    hide Host.AgentKnown;
    hide Host.EffectsCounted;
    hide InStep;
    hide OneFreezeOwed;
    failed, notes := false, [];
    if frozen {
      var ok;
      ok, notes := ThawGuest(h);
      failed := !ok;
    }
    if agent {
      h.AgentClose();
    }
    if q.Some? {
      h.QmpClose();
    }
  }

  /** A snapshot through a connection to the process that froze, or of an LV. */
  lemma HeldAtSnapshot(a: Agent, s: State, q: Option<nat>)
    requires FrozenAsTold(a, s) && a.freezeNo.Some? && a.took.Some? && !a.melted
    requires q.Some? ==> Alive(s, q.value) && q.value <= a.channel
    ensures if q.Some? then s.frozen else HeldFrom(s, a.channel)
  {
  }

  method FreezeAndSnapshot(h: Host, plan: Plan, q: Option<nat>, origin: bool)
    returns (agent: bool, frozen: bool, snapped: bool, notes: seq<Note>)
    requires h.Valid() && h.qmpOpen == (if q.Some? then 1 else 0) && h.agentOpen == 0 && h.Untold()
    requires (q.Some? ==> !plan.lvm && !origin && q.value <= h.st.gen) && (origin ==> plan.lvm)
    modifies h`st, h`run, h`ga, h`agentOpen, h`froze, h`heard, h`late, h`snapped, h`snapAt, h`lostSnapshot, h`overlays
    ensures h.Follows(old(h.run)) && h.agentOpen == if agent then 1 else 0
    ensures h.Counted(old(h.overlays), plan.lvm)
    ensures h.lostSnapshot ==> !snapped && q.Some? && h.st.file
    ensures h.froze == frozen && h.FreezeTold() && h.thawTries == 0 && (frozen ==> agent)
    ensures frozen && !h.late ==> InStep(h.ga)
    ensures h.froze || h.heard.Some? || h.ga.freezeNo.Some? ==> plan.fsfreeze
    ensures old(h.ga).synced.Some? ==> h.ga.synced == old(h.ga).synced
    ensures h.snapped == snapped && (snapped ==> origin || q.Some?)
    ensures snapped ==> h.snapAt == |h.run.steps| - 1
    ensures snapped ==> Taken(h.run, h.snapAt, SnapStep(plan), frozen && !h.late, h.ga.channel)
    ensures plan.fsfreeze && q == None && !origin && old(h.st).act != Off && Idle(old(h.ga)) ==>
              && (h.script == LoseFreeze ==> h.LostFreeze())
              && (h.script == LateStatus && !old(h.st).frozen ==> frozen && OneFreezeOwed(h.ga))
    ensures q == Some(old(h.st).gen) && old(h.st).act == OnBase && Idle(old(h.ga)) ==>
              && (h.script == LoseSnapshot && !plan.fsfreeze ==> h.lostSnapshot)
              && (h.script == LateStatus && plan.fsfreeze && !old(h.st).frozen ==>
                    frozen && snapped && !h.run.states[h.snapAt].frozen)
    ensures !CommitNoted(notes)
    ensures notes == [] <==> (origin || q.Some? ==> snapped) && (plan.fsfreeze ==> frozen)
    ensures q == None && !origin && !plan.fsfreeze ==> h.st == old(h.st) && h.run == old(h.run)
    ensures old(h.Smooth(plan)) && (q.Some? ==> q == Some(old(h.st).gen)) ==>
              && frozen == plan.fsfreeze && snapped == (origin || q.Some?)
              && (frozen ==> h.ga.owed == [] && h.Lives(h.ga.channel))
    ensures old(h.Smooth(plan)) && (q.Some? ==> q == Some(old(h.st).gen)) && snapped == plan.snapshot ==>
              && h.st == WithSnapshot(plan, old(h.st).(frozen := plan.fsfreeze || old(h.st).frozen))
              && h.run.steps == old(h.run).steps + (Freezing(plan, old(h.st).frozen) + Snapping(plan))
  {
    hide Host.Recorded;
    hide Host.AgentKnown;
    hide Host.EffectsCounted;
    hide CommitNoted;
    hide Enabled;
    hide Apply;
    hide Later;
    hide WithSnapshot;
    hide Freezing;
    hide Snapping;
    hide InStep;
    hide Host.FreezeTold;
    hide OneFreezeOwed;
    hide FrozenAsTold;
    hide HeldFrom;
    var more;
    agent, frozen, notes := OpenAndFreeze(h, plan);
    ghost var a := h.ga;
    if old(h.Smooth(plan)) {
      FrozenAtRest(old(h.st), plan, h.st.frozen);
    }
    hide AtRest;
    snapped, more := TakeSnapshot(h, plan, q, origin);
    h.AskedKnown();
    if snapped && frozen && !h.late {
      HeldAtSnapshot(h.ga, h.run.states[h.snapAt], q);
    }
    NotedInParts(notes, more);
    Joined(old(h.run).steps, Freezing(plan, old(h.st).frozen), Snapping(plan));
    notes := notes + more;
  }

  method PrepareAndSnapshot(h: Host, plan: Plan)
    returns (q: Option<nat>, agent: bool, frozen: bool, snapped: bool, notes: seq<Note>)
    requires h.Valid() && h.qmpOpen == 0 && h.agentOpen == 0 && h.Untold()
    modifies h`st, h`run, h`ga, h`slept, h`qmpOpen, h`connects, h`commits, h`agentOpen, h`froze, h`heard, h`late,
      h`snapped, h`snapAt, h`lostSnapshot, h`overlays
    ensures h.Follows(old(h.run)) && h.qmpOpen == if q.Some? then 1 else 0
    ensures h.agentOpen == if agent then 1 else 0
    ensures h.Counted(old(h.overlays), plan.lvm) && h.Asked(plan)
    ensures h.froze == frozen && h.FreezeTold() && h.thawTries == 0 && (frozen ==> agent)
    ensures frozen && !h.late ==> InStep(h.ga)
    ensures old(h.ga).synced.Some? ==> h.ga.synced == old(h.ga).synced
    ensures h.snapped == snapped
    ensures snapped ==> h.snapAt == |h.run.steps| - 1
    ensures snapped ==> Taken(h.run, h.snapAt, SnapStep(plan), frozen && !h.late, h.ga.channel)
    ensures plan.fsfreeze && !plan.snapshot && old(h.st).act != Off && Idle(old(h.ga)) ==>
              && (h.script == LoseFreeze ==> h.LostFreeze())
              && (h.script == LateStatus && !old(h.st).frozen ==> frozen && OneFreezeOwed(h.ga))
    ensures OverlayPlan(plan) && old(h.st).act == OnBase && !old(h.st).file && Idle(old(h.ga)) ==>
              && (h.script == LoseSnapshot && !plan.fsfreeze ==> h.lostSnapshot)
              && (h.script == LateStatus && plan.fsfreeze && !old(h.st).frozen ==>
                    frozen && snapped && !h.run.states[h.snapAt].frozen)
    ensures !CommitNoted(notes) && old(h.commits) <= h.commits && old(h.connects) <= h.connects
    ensures notes == [] <==> (plan.snapshot ==> snapped) && (plan.fsfreeze ==> frozen)
    ensures !plan.snapshot && !plan.fsfreeze ==> h.st == old(h.st) && h.run == old(h.run)
    ensures h.slept <= old(h.slept) + 4000 + 1000 * (plan.commitTimeout + 601)
    ensures old(h.Smooth(plan)) ==>
              && frozen == plan.fsfreeze && snapped == plan.snapshot && h.slept == old(h.slept)
              && (frozen ==> h.ga.owed == [] && h.Lives(h.ga.channel))
              && h.st == WithSnapshot(plan, old(h.st).(frozen := plan.fsfreeze || old(h.st).frozen))
              && h.run.steps == old(h.run).steps + (Freezing(plan, old(h.st).frozen) + Snapping(plan))
  {
    hide Later;
    hide Kept;
    hide CommitNoted;
    hide Taken;
    hide InStep;
    hide OneFreezeOwed;
    hide Host.FreezeTold;
    hide Host.Recorded;
    hide Host.AgentKnown;
    hide Host.EffectsCounted;
    hide WithSnapshot;
    hide Freezing;
    hide Snapping;
    hide AtRest;
    var origin, more;
    q, origin, notes := PrepareSnapshot(h, plan);
    agent, frozen, snapped, more := FreezeAndSnapshot(h, plan, q, origin);
    NotedInParts(notes, more);
    notes := notes + more;
  }

  /** Freeze, snapshot, thaw; every client is closed again afterwards. */
  method SnapshotPhase(h: Host, plan: Plan) returns (snapped: bool, thawFailed: bool, notes: seq<Note>)
    requires h.Valid() && h.qmpOpen == 0 && h.agentOpen == 0 && h.Untold()
    modifies h`st, h`run, h`ga, h`slept, h`qmpOpen, h`connects, h`commits, h`agentOpen, h`froze, h`heard, h`late,
      h`thawed, h`thawTries, h`snapped, h`snapAt, h`lostSnapshot, h`overlays
    ensures h.Follows(old(h.run)) && h.qmpOpen == 0 && h.agentOpen == 0
    ensures h.Counted(old(h.overlays), plan.lvm) && h.Asked(plan) && h.FreezeTold()
    ensures h.froze && h.thawed && !h.late ==> h.ga.melted
    ensures old(h.ga).synced.Some? ==> h.ga.synced == old(h.ga).synced
    ensures Idle(old(h.ga)) ==> h.Scripted(plan, old(h.st))
    ensures h.snapped == snapped && thawFailed == (h.froze && !h.thawed)
    ensures h.froze ==> 1 <= h.thawTries <= 5 && (h.thawed || h.thawTries == 5)
    ensures snapped ==> Taken(h.run, h.snapAt, SnapStep(plan), h.froze && !h.late, h.ga.channel)
    ensures snapped ==> h.OnlyAmbient(h.snapAt + 1)
    ensures !CommitNoted(notes) && old(h.commits) <= h.commits && old(h.connects) <= h.connects
    ensures notes == [] <==> (plan.snapshot ==> snapped) && (plan.fsfreeze ==> h.froze && h.thawed)
    ensures !plan.snapshot && !plan.fsfreeze ==> h.st == old(h.st) && h.run == old(h.run)
    ensures h.slept <= old(h.slept) + 8000 + 1000 * (plan.commitTimeout + 601)
    ensures old(h.Smooth(plan)) ==>
              && snapped == plan.snapshot && !thawFailed && notes == [] && h.slept == old(h.slept)
              && h.st == WithSnapshot(plan, old(h.st).(frozen := !plan.fsfreeze && old(h.st).frozen))
              && h.run.steps == old(h.run).steps + Steps(plan, old(h.st).frozen)
  {
    hide WithSnapshot;
    hide Freezing;
    hide Snapping;
    hide AtRest;
    hide Host.Counted;
    hide Host.FreezeTold;
    hide CommitNoted;
    hide Taken;
    hide InStep;
    hide OneFreezeOwed;
    hide Host.Recorded;
    hide Host.AgentKnown;
    hide Host.EffectsCounted;
    var q, agent, frozen, more;
    q, agent, frozen, snapped, notes := PrepareAndSnapshot(h, plan);
    ghost var atSnapshot := h.run;
    thawFailed, more := ThawAndClose(h, q, agent, frozen);
    NotedInParts(notes, more);
    Joined(old(h.run).steps, Freezing(plan, old(h.st).frozen) + Snapping(plan), Thawing(plan));
    ThawedSnapshot(plan, old(h.st), plan.fsfreeze || old(h.st).frozen, !plan.fsfreeze && old(h.st).frozen);
    notes := notes + more;
    if snapped {
      TakenLasts(atSnapshot, h.run, h.snapAt, SnapStep(plan), h.froze && !h.late, h.ga.channel);
    }
  }

  /** Run the backup client on the snapshot, if there is one. */
  method ReadImage(h: Host, plan: Plan, snapped: bool) returns (rc: int)
    requires h.Valid() && h.qmpOpen == 0 && h.agentOpen == 0
    requires snapped ==> Taken(h.run, h.snapAt, SnapStep(plan), h.froze && !h.late, h.ga.channel)
    requires snapped ==> h.OnlyAmbient(h.snapAt + 1)
    modifies h`st, h`run, h`ga, h`client, h`read
    ensures h.Follows(old(h.run)) && Passed(old(h.ga), h.ga)
    ensures (old(h.FreezeTold()) ==> h.FreezeTold()) && h.ga.freezeNo == old(h.ga).freezeNo
    ensures h.client == Some(rc) && h.read.lv == (snapped && plan.lvm) && h.read.thawTries == h.thawTries
    ensures h.read.commits == h.commits && h.read.connects == h.connects
    ensures h.read.start == |old(h.run).steps|
    ensures h.script != Free ==> rc == 0 && h.st == old(h.st) && h.ga == old(h.ga) && h.run == old(h.run)
    ensures snapped ==> PointInTime(h.run, h.snapAt, h.read.start, h.read.end, SnapStep(plan),
                                    h.froze && !h.late, h.ga.channel)
  {
    hide Host.Recorded;
    hide Host.AgentKnown;
    hide Host.EffectsCounted;
    rc := h.RunBackup(snapped && plan.lvm);
    if snapped {
      TakenLasts(old(h.run), h.run, h.snapAt, SnapStep(plan), h.froze && !h.late, h.ga.channel);
    }
  }

  /** Take the snapshot and read it. */
  method BackUpSnapshot(h: Host, plan: Plan) returns (snapped: bool, thawFailed: bool, rc: int, notes: seq<Note>)
    requires h.Valid() && h.qmpOpen == 0 && h.agentOpen == 0 && h.Untold()
    modifies h
    ensures h.Follows(old(h.run)) && h.qmpOpen == 0 && h.agentOpen == 0 && h.client == Some(rc)
    ensures h.Counted(old(h.overlays), plan.lvm) && h.Asked(plan) && h.FreezeTold()
    ensures h.froze && h.thawed && !h.late ==> h.ga.melted
    ensures old(h.ga).synced.Some? ==> h.ga.synced == old(h.ga).synced
    ensures Idle(old(h.ga)) ==> h.Scripted(plan, old(h.st))
    ensures h.script != Free ==> rc == 0
    ensures h.script != Free && !plan.snapshot && !plan.fsfreeze ==> h.st == old(h.st) && h.run == old(h.run)
    ensures h.read.commits == h.commits && h.read.connects == h.connects
    ensures h.read.lv == (snapped && plan.lvm) && h.read.thawTries == h.thawTries
    ensures h.snapped == snapped && thawFailed == (h.froze && !h.thawed)
    ensures h.froze ==> 1 <= h.thawTries <= 5 && (h.thawed || h.thawTries == 5)
    ensures snapped ==> PointInTime(h.run, h.snapAt, h.read.start, h.read.end, SnapStep(plan),
                                    h.froze && !h.late, h.ga.channel)
    ensures !CommitNoted(notes) && old(h.commits) <= h.commits && old(h.connects) <= h.connects
    ensures notes == [] <==> (plan.snapshot ==> snapped) && (plan.fsfreeze ==> h.froze && h.thawed)
    ensures h.slept <= old(h.slept) + 8000 + 1000 * (plan.commitTimeout + 601)
    ensures old(h.Smooth(plan)) ==>
              && snapped == plan.snapshot && !thawFailed && notes == [] && h.slept == old(h.slept)
              && (snapped ==> Clearable(plan, h.st))
              && h.run.steps == old(h.run).steps + Steps(plan, old(h.st).frozen)
  {
    hide Host.Recorded;
    hide Host.AgentKnown;
    hide Host.EffectsCounted;
    hide CommitNoted;
    hide PointInTime;
    hide Taken;
    hide WithSnapshot;
    hide Steps;
    hide AtRest;
    hide Clearable;
    hide Host.Counted;
    hide Host.FreezeTold;
    hide Later;
    h.Sound();
    if old(h.Smooth(plan)) && plan.snapshot {
      ClearAfterSnapshot(plan, h.st, !plan.fsfreeze && h.st.frozen);
    }
    snapped, thawFailed, notes := SnapshotPhase(h, plan);
    rc := ReadImage(h, plan, snapped);
  }

  /** Drop the snapshot LV, or commit the overlay. */
  method CleanUp(h: Host, plan: Plan, snapped: bool) returns (uncommitted: bool, notes: seq<Note>)
    requires h.Valid() && h.qmpOpen == 0
    requires snapped ==> PointInTime(h.run, h.snapAt, h.read.start, h.read.end, SnapStep(plan),
                                     h.froze && !h.late, h.ga.channel)
    modifies h`st, h`run, h`ga, h`slept, h`qmpOpen, h`connects, h`commits
    ensures h.Follows(old(h.run)) && Passed(old(h.ga), h.ga) && h.qmpOpen == 0
    ensures snapped ==> PointInTime(h.run, h.snapAt, h.read.start, h.read.end, SnapStep(plan),
                                    h.froze && !h.late, h.ga.channel)
    ensures (uncommitted <==> CommitNoted(notes)) && (uncommitted ==> snapped && !plan.lvm)
    ensures snapped && !plan.lvm && !uncommitted ==> h.st.merged || h.st.aborted
    ensures if snapped && !plan.lvm then h.commits == old(h.commits) + 1 || h.connects == old(h.connects) + 10
            else h.commits == old(h.commits) && h.connects == old(h.connects)
    ensures snapped && notes == [] ==> if plan.lvm then h.st.snapLv == None else !h.st.file
    ensures !snapped ==> notes == [] && h.st == old(h.st) && h.ga == old(h.ga) && h.run == old(h.run)
    ensures h.slept <= old(h.slept) + 27000 + 1000 * (plan.commitTimeout + 601)
    ensures !snapped ==> h.slept == old(h.slept)
    ensures h.script == Willing && snapped && plan.snapshot && old(Clearable(plan, h.st)) ==>
              && notes == [] && h.slept == old(h.slept)
              && h.run.steps == old(h.run).steps + Clearing(plan)
  {
    hide Host.Recorded;
    hide Host.AgentKnown;
    hide Host.EffectsCounted;
    uncommitted, notes := false, [];
    if snapped && plan.lvm {
      var err := RemoveSnapshotLv(h);
      if err != None {
        notes := [LvLeft(err.value)];
      }
    } else if snapped {
      var err;
      err, notes := CommitAfterBackup(h, plan);
      uncommitted := err != None;
    }
    if snapped {
      PointInTimeLasts(old(h.run), h.run, h.snapAt, h.read.start, h.read.end, SnapStep(plan),
                       h.froze && !h.late, h.ga.channel);
    }
  }

  /** Clean up and decide the exit code. */
  method Finish(h: Host, plan: Plan, snapped: bool, thawFailed: bool, rc: int, notes: seq<Note>) returns (out: Outcome)
    requires h.Valid() && h.qmpOpen == 0 && !CommitNoted(notes)
    requires snapped ==> PointInTime(h.run, h.snapAt, h.read.start, h.read.end, SnapStep(plan),
                                     h.froze && !h.late, h.ga.channel)
    modifies h`st, h`run, h`ga, h`slept, h`qmpOpen, h`connects, h`commits
    ensures h.Follows(old(h.run)) && Passed(old(h.ga), h.ga) && h.qmpOpen == 0
    ensures (old(h.FreezeTold()) ==> h.FreezeTold()) && h.ga.freezeNo == old(h.ga).freezeNo
    ensures snapped ==> PointInTime(h.run, h.snapAt, h.read.start, h.read.end, SnapStep(plan),
                                    h.froze && !h.late, h.ga.channel)
    ensures out.rc == Verdict(rc, CommitNoted(out.notes), thawFailed)
    ensures CommitNoted(out.notes) ==> snapped && !plan.lvm
    ensures snapped && !plan.lvm && !CommitNoted(out.notes) ==> h.st.merged || h.st.aborted
    ensures if snapped && !plan.lvm then h.commits == old(h.commits) + 1 || h.connects == old(h.connects) + 10
            else h.commits == old(h.commits) && h.connects == old(h.connects)
    ensures out.notes == [] ==> notes == [] && (snapped ==> if plan.lvm then h.st.snapLv == None else !h.st.file)
    ensures !snapped ==> out.notes == notes && h.st == old(h.st) && h.ga == old(h.ga) && h.run == old(h.run)
    ensures h.slept <= old(h.slept) + 27000 + 1000 * (plan.commitTimeout + 601)
    ensures h.script == Willing && snapped == plan.snapshot && (snapped ==> old(Clearable(plan, h.st))) ==>
              && out.notes == notes && h.slept == old(h.slept)
              && h.run.steps == old(h.run).steps + Clearing(plan)
  {
    hide Host.Recorded;
    hide Host.AgentKnown;
    hide Host.EffectsCounted;
    var uncommitted, more := CleanUp(h, plan, snapped);
    NotedInParts(notes, more);
    var code := rc;
    if uncommitted && code == 0 {
      code := 3;
    }
    if thawFailed && code == 0 {
      code := 4;
    }
    return Outcome(code, notes + more);
  }

  /** What a finished backup has come to. */
  ghost predicate Settled(h: Host, plan: Plan, out: Outcome)
    reads h
  {
    // the backup always runs, and this is its exit code
    && h.client.Some?
    && out.rc == Verdict(h.client.value, CommitNoted(out.notes), h.froze && !h.thawed)
    // after a confirmed overlay the commit is always tried, whatever the backup returned, and
    // has succeeded unless it is reported as failed
    && (h.Attempted() <==> h.snapped && !plan.lvm)
    && (CommitNoted(out.notes) ==> h.snapped && !plan.lvm)
    && (h.snapped && !plan.lvm && !CommitNoted(out.notes) ==> h.st.merged || h.st.aborted)
    // a confirmed freeze is followed by a thaw, tried up to five times before the client reads
    && (h.froze ==> 1 <= h.thawTries <= 5 && (h.thawed || h.thawTries == 5) && h.read.thawTries == h.thawTries)
    // the reply taken for the freeze's is its own exactly if what was asked before was answered
    // in time; then a confirmed freeze took effect, and so did a confirmed thaw
    && h.FreezeTold()
    && (h.froze && h.thawed && !h.late ==> h.ga.melted)
    // with a confirmed snapshot the client read what was taken, of a frozen guest in that case
    && h.read.lv == (h.snapped && plan.lvm)
    && (h.snapped ==> PointInTime(h.run, h.snapAt, h.read.start, h.read.end, SnapStep(plan),
                                  h.froze && !h.late, h.ga.channel))
    && h.Asked(plan)
  }

  /** Nothing noted: everything the plan asks for was confirmed, and what a snapshot left
      behind is gone. */
  ghost predicate AllDone(h: Host, plan: Plan)
    reads h
  {
    && (plan.fsfreeze ==> h.froze && h.thawed)
    && (plan.snapshot ==> h.snapped && if plan.lvm then h.st.snapLv == None else !h.st.file)
  }

  method BackUpRunning(h: Host, plan: Plan) returns (out: Outcome)
    requires h.Valid() && h.qmpOpen == 0 && h.agentOpen == 0 && h.Untold()
    modifies h
    ensures h.Follows(old(h.run)) && h.qmpOpen == 0 && h.agentOpen == 0
    ensures Settled(h, plan, out) && (out.notes == [] ==> AllDone(h, plan))
    ensures h.Counted(old(h.overlays), plan.lvm)
    ensures old(h.ga).synced.Some? ==> h.ga.synced == old(h.ga).synced
    ensures Idle(old(h.ga)) ==> h.Scripted(plan, old(h.st))
    ensures h.script != Free ==> h.client == Some(0)
    ensures !plan.snapshot && (plan.fsfreeze ==> h.froze && h.thawed) ==> out.notes == []
    ensures h.script != Free && !plan.snapshot && !plan.fsfreeze ==> h.st == old(h.st) && h.run == old(h.run)
    ensures h.slept <= old(h.slept) + 35000 + 2000 * (plan.commitTimeout + 601)
    ensures old(h.Smooth(plan)) ==>
              && out == Outcome(0, []) && h.slept == old(h.slept)
              && h.run.steps == old(h.run).steps + (Steps(plan, old(h.st).frozen) + Clearing(plan))
  {
    hide Steps;
    hide Clearing;
    hide Clearable;
    hide AtRest;
    hide Host.Counted;
    hide Host.FreezeTold;
    hide PointInTime;
    hide CommitNoted;
    hide Later;
    hide Host.Recorded;
    hide Host.AgentKnown;
    hide Host.EffectsCounted;
    var snapped, thawFailed, rc, notes := BackUpSnapshot(h, plan);
    out := Finish(h, plan, snapped, thawFailed, rc, notes);
    Joined(old(h.run).steps, Steps(plan, old(h.st).frozen), Clearing(plan));
  }

  /** A stopped instance is backed up as it is. */
  method BackUpStopped(h: Host, plan: Plan) returns (out: Outcome)
    requires h.Valid() && h.qmpOpen == 0 && h.agentOpen == 0 && h.Untold()
    modifies h`st, h`run, h`ga, h`client, h`read
    ensures h.Follows(old(h.run)) && Passed(old(h.ga), h.ga)
    ensures Settled(h, plan, out) && out.notes == [] && h.read.start == |old(h.run).steps|
    ensures h.script != Free ==> h.client == Some(0) && h.st == old(h.st) && h.run == old(h.run)
  {
    hide PointInTime;
    hide Later;
    hide Host.Recorded;
    hide Host.AgentKnown;
    hide Host.EffectsCounted;
    var rc := h.RunBackup(false);
    NoNotes([]);
    return Outcome(rc, []);
  }

  lemma NoNotes(notes: seq<Note>)
    requires notes == []
    ensures !CommitNoted(notes)
  {
  }

  lemma ExitCode(h: Host, plan: Plan, out: Outcome)
    requires Settled(h, plan, out)
    ensures out.rc == if h.client.value != 0 then h.client.value
                      else if exists n | n in out.notes :: n.CommitFailed? then 3
                      else if h.froze && !h.thawed then 4
                      else 0
  {
    hide PointInTime;
  }

  /** Back up with the instance's disk made as consistent as possible. */
  method ConsistentBackup(h: Host, plan: Plan) returns (out: Outcome)
    requires h.Valid() && h.qmpOpen == 0 && h.agentOpen == 0
    modifies h
    ensures h.Follows(old(h.run)) && h.qmpOpen == 0 && h.agentOpen == 0
    ensures Settled(h, plan, out)
    ensures out.rc == if h.client.value != 0 then h.client.value
                      else if exists n | n in out.notes :: n.CommitFailed? then 3
                      else if h.froze && !h.thawed then 4
                      else 0
    ensures h.heard.Some? || h.ga.freezeNo.Some? || h.snapped || h.lostSnapshot ==> plan.running
    ensures out.notes == [] && plan.running ==> AllDone(h, plan)
    ensures !plan.running ==> out.notes == [] && h.read.start == |old(h.run).steps|
    ensures !plan.snapshot && (plan.fsfreeze ==> h.froze && h.thawed) ==> out.notes == []
    // an overlay that took effect was confirmed, or its reply was lost
    ensures h.Counted(old(h.overlays), plan.lvm)
    // unless an earlier program's freeze is still on its way, any freeze from now on is this one's
    ensures old(h.NoFreezeOwed()) ==> h.ga.synced == Some(|old(h.run).steps|)
    ensures h.script != Free ==> h.client == Some(0)
    ensures plan.running && Idle(old(h.ga)) ==> h.Scripted(plan, old(h.st))
    ensures h.script != Free && (plan.running ==> !plan.snapshot && !plan.fsfreeze) ==>
              h.st == old(h.st) && h.run == old(h.run)
    ensures h.slept <= old(h.slept) + 35000 + 2000 * (plan.commitTimeout + 601)
    // where everything works, these are the steps, in this order, and nothing is waited for
    ensures h.script == Willing && old(Idle(h.ga) && AtRest(h.st, plan)) ==>
              && out == Outcome(0, []) && h.slept == old(h.slept)
              && h.run.steps == old(h.run).steps + (Steps(plan, old(h.st).frozen) + Clearing(plan))
  {
    hide Steps;
    hide Clearing;
    hide Settled;
    hide Host.Recorded;
    hide Host.AgentKnown;
    hide Host.EffectsCounted;
    h.Forget();
    if plan.running {
      out := BackUpRunning(h, plan);
    } else {
      out := BackUpStopped(h, plan);
    }
    ExitCode(h, plan, out);
  }

  // ----- what a lost or late reply leaves behind

  /** A freeze since step `since` has been followed by no thaw and no stop. */
  ghost predicate InForce(r: Run, since: nat) {
    exists k | since <= k < |r.steps| && r.steps[k] == Freeze ::
      forall j | k < j < |r.steps| :: r.steps[j] != Thaw && r.steps[j] != Stop
  }

  lemma {:induction false} CountGrows(a: seq<Event>, b: seq<Event>, e: Event)
    requires a <= b
    ensures CountOf(a, e) <= CountOf(b, e)
    ensures CountOf(a, e) < CountOf(b, e) <==> exists k | |a| <= k < |b| :: b[k] == e
    decreases |b|
  {
    if |a| < |b| {
      var n := |b| - 1;
      assert a == b[..n][..|a|];
      CountGrows(a, b[..n], e);
      if k :| |a| <= k < n && b[k] == e {
        assert b[..n][k] == e;
      }
    } else {
      assert a == b;
    }
  }

  /** A freeze is in force exactly if one happened and the guest is frozen. */
  lemma {:induction false} InForceIff(r: Run, since: nat, n: nat)
    requires r.Valid() && since <= n <= |r.steps|
    ensures r.states[n].frozen && (exists k | since <= k < n :: r.steps[k] == Freeze) <==>
            exists k | since <= k < n && r.steps[k] == Freeze ::
              forall j | k < j < n :: r.steps[j] != Thaw && r.steps[j] != Stop
    decreases n
  {
    if since < n {
      InForceIff(r, since, n - 1);
      assert r.StepAt(n - 1);
      InForceStep(r, since, n - 1);
    }
  }

  lemma InForceStep(r: Run, since: nat, n: nat)
    requires r.Valid() && since <= n < |r.steps| && r.StepAt(n)
    requires r.states[n].frozen && (exists k | since <= k < n :: r.steps[k] == Freeze) <==>
             exists k | since <= k < n && r.steps[k] == Freeze ::
              forall j | k < j < n :: r.steps[j] != Thaw && r.steps[j] != Stop
    ensures r.states[n + 1].frozen && (exists k | since <= k < n + 1 :: r.steps[k] == Freeze) <==>
            exists k | since <= k < n + 1 && r.steps[k] == Freeze ::
              forall j | k < j < n + 1 :: r.steps[j] != Thaw && r.steps[j] != Stop
  {
    var e := r.steps[n];
    if e == Freeze {
      assert r.states[n + 1].frozen;
    }
  }

  /** After a backup, its freeze is in force exactly if it took effect, no thaw did after it,
      and the process that froze lives on.  Unconfirmed, that is whenever it took effect, for
      no thaw is tried; confirmed and thawed, it takes an answer that came late. */
  lemma FreezeLeftIff(h: Host, plan: Plan, out: Outcome)
    requires h.Valid() && Settled(h, plan, out) && h.ga.synced.Some?
    ensures InForce(h.run, h.ga.synced.value) <==> h.ga.took.Some? && !h.ga.melted && h.Lives(h.ga.channel)
    ensures !h.froze ==> h.thawTries == 0
    ensures !h.froze ==> (InForce(h.run, h.ga.synced.value) <==> h.LostFreeze() && h.Lives(h.ga.channel))
    ensures h.froze && h.thawed && InForce(h.run, h.ga.synced.value) ==> h.late
  {
    hide PointInTime;
    hide CommitNoted;
    var a := h.ga;
    assert Known(a, h.st, h.run.steps) && h.st == h.run.Last();
    InForceIff(h.run, a.synced.value, |h.run.steps|);
    FrozenIsOurs(a, h.st, h.run.steps);
  }

  lemma FrozenIsOurs(a: Agent, s: State, steps: seq<Event>)
    requires Known(a, s, steps) && a.synced.Some?
    ensures s.frozen && (exists k | a.synced.value <= k < |steps| :: steps[k] == Freeze) <==>
            a.took.Some? && !a.melted && Alive(s, a.channel)
    ensures a.freezeNo.Some? && a.sent == a.freezeNo.value + 1 ==> !a.melted
  {
    hide Ordered;
    hide RequestsKnown;
    if k :| a.synced.value <= k < |steps| && steps[k] == Freeze {
      assert a.took == Some(k);
    }
  }

  /** An overlay made by this run is left without any attempt to commit it exactly if its
      reply was lost. */
  lemma OverlayLeftIff(h: Host, before: Run, overlays0: nat, plan: Plan, out: Outcome)
    requires |before.states| > 0 && h.Follows(before) && overlays0 == CountOf(before.steps, Snapshot)
    requires h.Counted(overlays0, plan.lvm) && Settled(h, plan, out)
    ensures (exists k | |before.steps| <= k < |h.run.steps| :: h.run.steps[k] == Snapshot) && !h.Attempted()
       <==> h.lostSnapshot
  {
    CountGrows(before.steps, h.run.steps, Snapshot);
  }

  /** The reply to the freeze is lost: the guest stays frozen, with exit code 0. */
  method LostFreezeExitsZero() returns (h: Host, out: Outcome)
    ensures h.Valid() && h.run.First() == FRESH && InForce(h.run, 0) && h.thawTries == 0 && out.rc == 0
  {
    h := new Host(FRESH, LoseFreeze);
    var plan := Plan(true, true, false, false, true, 0, 3600);
    out := ConsistentBackup(h, plan);
    h.AskedKnown();
    h.FrozenKnown();
    FreezeLeftIff(h, plan, out);
  }

  /** The reply to the status query is late: it is taken for the freeze's, the freeze's is
      taken for the thaw's, and the guest is left frozen with exit code 0 and no note. */
  method LateStatusExitsZero() returns (h: Host, out: Outcome)
    ensures h.Valid() && h.run.First() == FRESH && InForce(h.run, 0)
    ensures h.froze && h.thawed && out.rc == 0 && out.notes == []
  {
    h := new Host(FRESH, LateStatus);
    var plan := Plan(true, true, false, false, true, 0, 3600);
    out := ConsistentBackup(h, plan);
    h.AskedKnown();
    FreezeLeftIff(h, plan, out);
    NoNotes(out.notes);
  }

  /** With the same delay, the snapshot is taken of a guest that is not frozen yet, after a
      freeze that counts as confirmed. */
  method LateStatusSnapshotsUnfrozen() returns (h: Host)
    ensures h.Valid() && h.run.First() == FRESH && h.froze && h.snapped
    ensures h.snapAt < |h.run.steps| && h.run.steps[h.snapAt] == Snapshot && !h.run.states[h.snapAt].frozen
  {
    h := new Host(FRESH, LateStatus);
    var plan := Plan(true, true, true, false, true, 0, 3600);
    var q, agent, frozen, snapped, notes := PrepareAndSnapshot(h, plan);
  }

  /** The reply to the snapshot is lost: the guest runs on an overlay that nobody tries to
      commit, with exit code 0. */
  method LostSnapshotExitsZero() returns (h: Host, out: Outcome)
    ensures h.Valid() && h.run.First() == FRESH && Snapshot in h.run.steps && !h.Attempted() && out.rc == 0
  {
    h := new Host(FRESH, LoseSnapshot);
    ghost var before := h.run;
    var plan := Plan(true, false, true, false, true, 0, 3600);
    out := ConsistentBackup(h, plan);
    OverlayLeftIff(h, before, 0, plan, out);
  }

  // ----- what a backup without a snapshot reads

  /** The disk a backup reads while no write is lost and no snapshot LV is there: the guest's,
      unless an overlay holds blocks that the base does not.  A backup of a stopped instance
      never looks for one, and neither does a running one that is to take no snapshot. */
  lemma DirectReadIff(r: Run, i: nat)
    requires r.Valid() && Clean(r.First()) && Disciplined(r) && AllSheltered(r) && i <= |r.steps|
    ensures Image(r.states[i], false) == Some(r.states[i].guest) <==>
            var s := r.states[i]; s.act == OnBase || (s.act == Off && !s.file) || Drained(s)
  {
    BackupsNeverLoseWrites(r);
    assert Good(r.states[i]);
    BaseIsGuestsIff(r.states[i]);
  }

  method KilledAfterSnapshot() returns (r: Run)
    ensures r.Valid() && r.First() == FRESH && Disciplined(r) && AllSheltered(r)
    ensures r.steps == [Write(0, 1), Snapshot, Write(0, 2), Stop]
    ensures r.states[3].act == OnOverlay && r.Last().act == Off
    ensures forall i | 3 <= i <= 4 :: r.states[i].base == map[0 := 1] && r.states[i].guest == map[0 := 2]
  {
    r := Run([], [FRESH]);
    ghost var _ := Extended(r, Write(0, 1));
    r := r.Then(Write(0, 1));
    ghost var _ := Extended(r, Snapshot);
    r := r.Then(Snapshot);
    ghost var _ := Extended(r, Write(0, 2));
    r := r.Then(Write(0, 2));
    ghost var _ := Extended(r, Stop);
    r := r.Then(Stop);
    forall i | 0 <= i < 4 ensures Sheltered(r.states[i], r.steps[i]) {
      assert r.StepAt(i);
    }
  }

  lemma ShelteredSoFar(r: Run, n: nat)
    requires r.Valid() && Disciplined(r) && AllSheltered(r) && n <= |r.steps|
    ensures r.Prefix(n).Valid() && AllSheltered(r.Prefix(n)) && r.Prefix(n).Last() == r.states[n]
  {
    PrefixIsRun(r, n);
    forall i | 0 <= i < n ensures Sheltered(r.states[i], r.steps[i]) {
      assert r.StepAt(i);
    }
  }

  lemma Verdicts(h: Host, plan: Plan, out: Outcome)
    requires Settled(h, plan, out) && out.notes == [] && h.client == Some(0)
    ensures !(h.froze && !h.thawed) ==> out.rc == 0
    ensures !plan.fsfreeze ==> !h.froze
  {
    NoNotes(out.notes);
  }

  /** A backup killed after its snapshot, a guest that writes and perhaps stops, and the next
      backup, of the stopped instance or without a snapshot: it reads the base without what
      was written, with exit code 0 and no note. */
  method StaleBackupExitsZero(stopped: bool) returns (h: Host, out: Outcome)
    ensures h.Valid() && Clean(h.run.First()) && AllSheltered(h.run) && out.rc == 0 && out.notes == []
    ensures h.st.act == if stopped then Off else OnOverlay
    ensures Image(h.st, false) == Some(map[0 := 1]) && h.st.guest == map[0 := 2]
  {
    hide PointInTime;
    hide CommitNoted;
    hide Known;
    hide Host.Scripted;
    hide Disciplined;
    hide AllSheltered;
    var r := KilledAfterSnapshot();
    var n := if stopped then 4 else 3;
    h := new Host.AfterKill(r, n, NOTHING_ASKED, LoseSnapshot);
    ShelteredSoFar(r, n);
    var plan := if stopped then Plan(false, true, true, false, true, 0, 3600)
                else Plan(true, false, false, false, true, 0, 3600);
    out := ConsistentBackup(h, plan);
    Verdicts(h, plan, out);
  }

  // ----- qemu.init

  /** The start of an instance: recovery first, no start when it fails. */
  method StartInstance(h: Host, plan: Plan) returns (started: bool)
    requires h.Valid() && h.qmpOpen == 0
    requires !plan.overlay ==> !h.st.file     // LVM disks have no overlay
    modifies h`st, h`run, h`ga, h`slept, h`qmpOpen, h`connects, h`commits
    ensures h.Follows(old(h.run)) && h.qmpOpen == 0
    ensures started ==> !h.st.file && h.st.act == OnBase
    ensures h.script != Free ==> (started <==> old(h.st).act == Off && Refusal(plan, old(h.st)) == None)
  {
    var err := Recover(h, plan);
    if err != None {
      return false;
    }
    started := h.st.act == Off;
    if started {
      h.Do(Start);
    }
  }

  /** Any number of backups, recoveries and starts one after the other, each of them
      killed at any step or run to its end: in a sheltering environment the guest's disk
      is its own write history at every moment. */
  method Operate(initial: State) returns (h: Host)
    requires Clean(initial)
    ensures h.Valid() && h.run.First() == initial
    ensures AllSheltered(h.run) ==> forall i | 0 <= i < |h.run.states| :: Good(h.run.states[i])
  {
    var script: Script := *;
    h := new Host(initial, script);
    var n: nat := *;
    while n > 0
      invariant h.Valid() && h.run.First() == initial && fresh(h) && h.qmpOpen == 0 && h.agentOpen == 0
    {
      h := OperateOnce(h);
      n := n - 1;
    }
    if AllSheltered(h.run) {
      BackupsNeverLoseWrites(h.run);
    }
  }

  method OperateOnce(h: Host) returns (next: Host)
    requires h.Valid() && h.qmpOpen == 0 && h.agentOpen == 0
    modifies h
    ensures next.Valid() && next.run.First() == old(h.run).First() && (next == h || fresh(next))
    ensures next.qmpOpen == 0 && next.agentOpen == 0
  {
    next := h;
    var before := |h.run.steps|;
    var plan: Plan := *;
    var what: nat := *;
    if what == 0 {
      var _ := ConsistentBackup(h, plan);
    } else if what == 1 {
      var _ := Recover(h, plan);
    } else if plan.overlay || !h.st.file {
      var _ := StartInstance(h, plan);
    }
    var killedAt: nat := *;
    if before <= killedAt < |h.run.steps| {
      var script: Script := *;
      var left: Agent := *;
      next := new Host.AfterKill(h.run, killedAt, if Ordered(left) then left else NOTHING_ASKED, script);
    }
  }
}
