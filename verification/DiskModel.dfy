/** One virtual machine's disk under backup, as a transition system.
    QEMU is a base image, an optional temporary overlay file, the layer the guest
    currently runs on and at most one block-commit job.  `guest` is the guest's own
    write history: the disk it must always see.  Everything that can happen to the
    disk is an `Event`; a run of the real system, cut short anywhere by a kill, is a
    sequence of events. */
module DiskModel {
  import opened Wrappers

  type Disk = map<nat, int>

  datatype Active = Off | OnBase | OnOverlay

  datatype Job = NoJob | Job(ready: bool, completing: bool)

  datatype State = State(
    base: Disk,             // the instance's root disk
    ov: Disk,               // blocks held by the overlay
    file: bool,             // the overlay file exists
    act: Active,
    job: Job,
    gen: nat,               // number of the QEMU process
    frozen: bool,           // guest filesystems frozen
    snapLv: Option<Disk>,   // LVM snapshot of the base
    room: nat,              // how many rewritten blocks of the base the snapshot can save
    cow: set<nat>,          // blocks of the base written since it was made
    merged: bool,           // history: the overlay has been committed in full
    aborted: bool,          // history: a commit job died after it was told to complete
    guest: Disk)            // history: what the guest wrote

  datatype Event =
    | Write(block: nat, data: int)
    | Stop                  // guest shutdown, crash or kill of QEMU
    | Respawn               // procd restarts QEMU after it died
    | Start                 // `/etc/init.d/qemu start`, recovery done first
    | Freeze | Thaw
    | Snapshot              // blockdev-snapshot-sync
    | JobStart              // block-commit
    | JobCopy(from: nat)
    | JobReady
    | JobComplete           // block-job-complete
    | JobPivot
    | JobFail
    | OfflineCopy(from: nat)
    | OfflineCommit         // qemu-img commit
    | Unlink
    | LvCreate(room: nat)   // `lvcreate -s`, which saves that many blocks
    | LvRemove

  /** The overlay over the base: what a guest running on the overlay reads. */
  function Merge(s: State): Disk {
    s.base + s.ov
  }

  predicate Drained(s: State) {
    Merge(s) == s.base
  }

  predicate Enabled(s: State, e: Event) {
    match e
    case Write(_, _) => s.act != Off && !s.frozen
    case Stop => s.act != Off
    case Respawn => s.act == Off
    case Start => s.act == Off
    case Freeze => s.act != Off
    case Thaw => s.act != Off
    case Snapshot => s.act == OnBase
    case JobStart => s.act == OnOverlay && s.job == NoJob
    case JobCopy(b) => s.job.Job? && b in s.ov
    case JobReady => s.job.Job? && Drained(s)
    case JobComplete => s.job.Job? && s.job.ready
    case JobPivot => s.job.Job? && s.job.completing && Drained(s)
    case JobFail => s.job.Job?
    case OfflineCopy(b) => s.act == Off && s.file && b in s.ov
    case OfflineCommit => s.act == Off && s.file
    case Unlink => s.file
    case LvCreate(_) => true
    case LvRemove => true
  }

  /** The blocks of the base that a step writes. */
  function Rewrites(s: State, e: Event): set<nat> {
    match e
    case Write(b, _) => if s.act == OnBase then {b} else {}
    case JobCopy(b) => {b}
    case OfflineCopy(b) => {b}
    case OfflineCommit => s.ov.Keys
    case _ => {}
  }

  function Apply(s: State, e: Event): State
    requires Enabled(s, e)
  {
    match e
    case Write(b, v) =>
      if s.act == OnBase
      then s.(base := s.base[b := v], guest := s.guest[b := v], cow := s.cow + {b})
      else s.(ov := s.ov[b := v], guest := s.guest[b := v])
    case Stop => s.(act := Off, job := NoJob, frozen := false)
    case Respawn => s.(act := OnBase, gen := s.gen + 1)
    case Start => s.(act := OnBase, gen := s.gen + 1)
    case Freeze => s.(frozen := true)
    case Thaw => s.(frozen := false)
    case Snapshot => s.(act := OnOverlay, file := true, ov := map[], merged := false, aborted := false)
    case JobStart => s.(job := Job(false, false))
    case JobCopy(b) => s.(base := s.base[b := s.ov[b]], cow := s.cow + {b})
    case JobReady => s.(job := s.job.(ready := true))
    case JobComplete => s.(job := s.job.(completing := true))
    case JobPivot => s.(act := OnBase, job := NoJob, merged := true)
    case JobFail => s.(job := NoJob, aborted := s.aborted || s.job.completing)
    case OfflineCopy(b) => s.(base := s.base[b := s.ov[b]], cow := s.cow + {b})
    case OfflineCommit => s.(base := Merge(s), merged := true, cow := s.cow + s.ov.Keys)
    case Unlink => s.(file := false)
    case LvCreate(room) => s.(snapLv := Some(s.base), room := room, cow := {})
    case LvRemove => s.(snapLv := None)
  }

  /** A job only exists while QEMU runs on the overlay it commits. */
  predicate Consistent(s: State) {
    s.job.Job? ==> s.act == OnOverlay
  }

  /** The disk the guest reads; for a stopped guest, the disk the next start will
      give it (recovery merges a leftover overlay file first). */
  function Seen(s: State): Disk {
    match s.act
    case OnBase => s.base
    case OnOverlay => Merge(s)
    case Off => if s.file then Merge(s) else s.base
  }

  /** The guest has its own writes, all of them and nothing else. */
  predicate Good(s: State) {
    Seen(s) == s.guest
  }

  /** The steps that lose guest writes, in terms an operator could check beforehand. */
  predicate Loses(s: State, e: Event) {
    match e
    case Stop => !Drained(s) && s.act != Off && (s.act == OnBase <==> s.file)
    case Respawn => s.file && !Drained(s)
    case Start => s.file && !Drained(s)
    case Unlink => s.act == Off && !Drained(s)
    case _ => false
  }

  // ----- runs

  /** What happened, and the state before and after every step. */
  datatype Run = Run(steps: seq<Event>, states: seq<State>) {
    ghost predicate Valid() {
      && |states| == |steps| + 1
      && forall i | 0 <= i < |steps| :: StepAt(i)
    }

    ghost predicate StepAt(i: nat)
      requires i < |steps| && |states| == |steps| + 1
    {
      Enabled(states[i], steps[i]) && states[i + 1] == Apply(states[i], steps[i])
    }

    function First(): State
      requires |states| > 0
    {
      states[0]
    }

    function Last(): State
      requires |states| > 0
    {
      states[|states| - 1]
    }

    function Prefix(n: nat): Run
      requires n <= |steps| && n < |states|
    {
      Run(steps[..n], states[..n + 1])
    }

    function Then(e: Event): Run
      requires |states| > 0 && Enabled(Last(), e)
    {
      Run(steps + [e], states + [Apply(Last(), e)])
    }
  }

  lemma StepStaysConsistent(s: State, e: Event)
    requires Consistent(s) && Enabled(s, e)
    ensures Consistent(Apply(s, e))
  {
  }

  lemma {:induction false} RunsStayConsistent(r: Run, i: nat)
    requires r.Valid() && Consistent(r.First()) && i <= |r.steps|
    ensures Consistent(r.states[i])
  {
    if i > 0 {
      RunsStayConsistent(r, i - 1);
      assert r.StepAt(i - 1);
      StepStaysConsistent(r.states[i - 1], r.steps[i - 1]);
    }
  }

  /** The first state and the steps determine every state of a run. */
  lemma {:induction false} StatesFollowSteps(r: Run, q: Run, i: nat)
    requires r.Valid() && q.Valid() && r.First() == q.First() && r.steps <= q.steps && i <= |r.steps|
    ensures r.states[i] == q.states[i]
  {
    if i > 0 {
      StatesFollowSteps(r, q, i - 1);
      assert r.StepAt(i - 1) && q.StepAt(i - 1);
    }
  }

  // ----- safety

  lemma CopyKeepsMerge(base: Disk, ov: Disk, b: nat)
    requires b in ov
    ensures base[b := ov[b]] + ov == base + ov
  {
  }

  lemma CommitKeepsMerge(base: Disk, ov: Disk)
    ensures (base + ov) + ov == base + ov
  {
  }

  lemma WriteKeepsMerge(base: Disk, ov: Disk, b: nat, v: int)
    ensures base + ov[b := v] == (base + ov)[b := v]
  {
  }

  /** One step keeps the guest's disk exactly when it is not a losing step. */
  lemma StepKeepsDisk(s: State, e: Event)
    requires Consistent(s) && Enabled(s, e) && Good(s)
    ensures Good(Apply(s, e)) <==> !Loses(s, e)
  {
    match e {
      case Write(b, v) => WriteKeepsMerge(s.base, s.ov, b, v);
      case Stop =>
      case Respawn =>
      case Start =>
      case Freeze =>
      case Thaw =>
      case Snapshot => assert s.base + map[] == s.base;
      case JobStart =>
      case JobCopy(b) => CopyKeepsMerge(s.base, s.ov, b);
      case JobReady =>
      case JobComplete =>
      case JobPivot =>
      case JobFail =>
      case OfflineCopy(b) => CopyKeepsMerge(s.base, s.ov, b);
      case OfflineCommit => CommitKeepsMerge(s.base, s.ov);
      case Unlink =>
      case LvCreate(_) =>
      case LvRemove =>
    }
  }

  ghost predicate LosesNothing(r: Run)
    requires r.Valid()
  {
    forall i {:trigger r.StepAt(i)} | 0 <= i < |r.steps| :: !Loses(r.states[i], r.steps[i])
  }

  lemma {:induction false} GoodUpTo(r: Run, i: nat)
    requires r.Valid() && Consistent(r.First()) && Good(r.First()) && LosesNothing(r) && i <= |r.steps|
    ensures Good(r.states[i])
  {
    if i > 0 {
      GoodUpTo(r, i - 1);
      RunsStayConsistent(r, i - 1);
      assert r.StepAt(i - 1);
      StepKeepsDisk(r.states[i - 1], r.steps[i - 1]);
    }
  }

  /** Over every run, cut short anywhere, the guest keeps its disk at every moment
      exactly when no step is one of the losing ones. */
  lemma RunKeepsDisk(r: Run)
    requires r.Valid() && Consistent(r.First()) && Good(r.First())
    ensures (forall i | 0 <= i < |r.states| :: Good(r.states[i])) <==> LosesNothing(r)
  {
    if LosesNothing(r) {
      forall i | 0 <= i < |r.states| ensures Good(r.states[i]) {
        GoodUpTo(r, i);
      }
    }
    if forall i | 0 <= i < |r.states| :: Good(r.states[i]) {
      forall i | 0 <= i < |r.steps| ensures !Loses(r.states[i], r.steps[i]) {
        RunsStayConsistent(r, i);
        assert r.StepAt(i);
        assert Good(r.states[i]) && Good(r.states[i + 1]);
        StepKeepsDisk(r.states[i], r.steps[i]);
      }
    }
  }

  // ----- what the programs promise, and the theorem about them

  /** The steps the programs take themselves: an overlay is removed only once its
      contents are in the base (or its commit job died unnoticed), and an instance is
      only started when no overlay is left. */
  predicate Allowed(s: State, e: Event) {
    match e
    case Unlink => s.merged || s.aborted
    case Start => !s.file
    case _ => true
  }

  ghost predicate Disciplined(r: Run)
    requires r.Valid()
  {
    forall i {:trigger r.StepAt(i)} | 0 <= i < |r.steps| :: Allowed(r.states[i], r.steps[i])
  }

  lemma PrefixIsRun(r: Run, n: nat)
    requires r.Valid() && Disciplined(r) && n <= |r.steps|
    ensures r.Prefix(n).Valid() && Disciplined(r.Prefix(n))
  {
    var p := r.Prefix(n);
    forall i | 0 <= i < |p.steps| ensures p.StepAt(i) && Allowed(p.states[i], p.steps[i]) {
      assert r.StepAt(i);
    }
  }

  /** What the environment must not do: stop the VM while a pivoted-away overlay file
      is still there, respawn QEMU over an overlay, or kill a commit job that has
      already accepted block-job-complete. */
  predicate Sheltered(s: State, e: Event) {
    match e
    case Stop => !(s.act == OnBase && s.file)
    case Respawn => !s.file
    case JobFail => !(s.job.Job? && s.job.completing)
    case _ => true
  }

  predicate Clean(s: State) {
    s.act != OnOverlay && !s.file && s.job == NoJob && !s.merged && !s.aborted && s.base == s.guest
  }

  /** Invariant of a disciplined run in a sheltering environment. */
  predicate Tracked(s: State) {
    && Consistent(s)
    && !s.aborted
    && (s.act == OnOverlay ==> s.file && !s.merged)
    && (s.act == Off && s.file && s.merged ==> Drained(s))
  }

  lemma TrackedStep(s: State, e: Event)
    requires Tracked(s) && Enabled(s, e) && Allowed(s, e) && Sheltered(s, e)
    ensures Tracked(Apply(s, e)) && !Loses(s, e)
  {
    match e
    case OfflineCopy(b) => CopyKeepsMerge(s.base, s.ov, b);
    case OfflineCommit => CommitKeepsMerge(s.base, s.ov);
    case _ =>
  }

  ghost predicate AllSheltered(r: Run)
    requires r.Valid()
  {
    forall i {:trigger r.StepAt(i)} | 0 <= i < |r.steps| :: Sheltered(r.states[i], r.steps[i])
  }

  lemma {:induction false} TrackedUpTo(r: Run, i: nat)
    requires r.Valid() && Clean(r.First()) && Disciplined(r) && AllSheltered(r) && i <= |r.steps|
    ensures Tracked(r.states[i])
    ensures i < |r.steps| ==> !Loses(r.states[i], r.steps[i])
  {
    if i > 0 {
      TrackedUpTo(r, i - 1);
      assert r.StepAt(i - 1);
      TrackedStep(r.states[i - 1], r.steps[i - 1]);
    }
    if i < |r.steps| {
      assert r.StepAt(i);
      TrackedStep(r.states[i], r.steps[i]);
    }
  }

  /** The safety theorem: whatever writes, stops and kills interleave with the backup
      and recovery programs, the guest's disk is its own write history at every moment,
      and an overlay is only ever unlinked when every block it holds has been merged. */
  lemma BackupsNeverLoseWrites(r: Run)
    requires r.Valid() && Clean(r.First()) && Disciplined(r) && AllSheltered(r)
    ensures forall i | 0 <= i < |r.states| :: Good(r.states[i])
    ensures forall i {:trigger r.steps[i]} | 0 <= i < |r.steps| && r.steps[i] == Unlink ::
              r.states[i].merged && r.states[i].act != OnOverlay
  {
    forall i | 0 <= i < |r.steps| ensures !Loses(r.states[i], r.steps[i]) {
      TrackedUpTo(r, i);
    }
    RunKeepsDisk(r);
    forall i | 0 <= i < |r.steps| && r.steps[i] == Unlink
      ensures r.states[i].merged && r.states[i].act != OnOverlay
    {
      TrackedUpTo(r, i);
      assert r.StepAt(i);
    }
  }

  /** `merged` means what it says: at some earlier moment `j` the base held every block
      of the overlay, and the overlay has not changed since. */
  lemma {:induction false} MergedMeansDrained(r: Run, i: nat) returns (j: nat)
    requires r.Valid() && Clean(r.First()) && i <= |r.steps| && r.states[i].merged
    ensures j <= i && Drained(r.states[j]) && r.states[j].ov == r.states[i].ov
    ensures r.states[i].act != OnOverlay
  {
    RunsStayConsistent(r, i - 1);
    assert r.StepAt(i - 1);
    j := i;
    if r.states[i - 1].merged {
      j := MergedMeansDrained(r, i - 1);
    }
    MergedStep(r.states[i - 1], r.steps[i - 1]);
  }

  lemma MergedStep(t: State, e: Event)
    requires Consistent(t) && Enabled(t, e) && Apply(t, e).merged && (t.merged ==> t.act != OnOverlay)
    ensures Apply(t, e).act != OnOverlay
    ensures if t.merged then Apply(t, e).ov == t.ov else Drained(Apply(t, e))
  {
    match e
    case OfflineCopy(b) => CopyKeepsMerge(t.base, t.ov, b);
    case OfflineCommit => CommitKeepsMerge(t.base, t.ov);
    case _ =>
  }

  // ----- the image a backup reads

  /** What happens on its own, without the backup and recovery programs. */
  predicate Outside(e: Event) {
    e.Write? || e.Stop? || e.Respawn? || e.JobCopy? || e.JobReady? || e.JobPivot? || e.JobFail?
  }

  /** What can happen while the programs send no command: outside events, and the guest
      agent carrying out requests it was sent before. */
  predicate Ambient(e: Event) {
    Outside(e) || e.Freeze? || e.Thaw?
  }

  /** The image handed to the backup: the snapshot LV, or the instance's own disk.  A
      snapshot LV with more rewritten blocks than it can save is invalid. */
  function Image(s: State, lv: bool): Option<Disk> {
    if !(lv && s.snapLv.Some?) then Some(s.base)
    else if |s.cow| <= s.room then s.snapLv
    else None
  }

  /** The blocks of the base written in steps `k` to `n`. */
  ghost function Rewritten(r: Run, k: nat, n: nat): set<nat>
    requires r.Valid() && n <= |r.steps|
  {
    set j, b | k <= j < n && b in Rewrites(r.states[j], r.steps[j]) :: b
  }

  lemma RewrittenNext(r: Run, k: nat, n: nat)
    requires r.Valid() && k <= n < |r.steps|
    ensures Rewritten(r, k, n + 1) == Rewritten(r, k, n) + Rewrites(r.states[n], r.steps[n])
  {
  }

  /** The one kind of step that spoils the instance's own disk as an image: a guest that runs
      on the base itself, as after a respawn, changes a block of it. */
  predicate Spoils(s: State, e: Event) {
    e.Write? && s.act == OnBase && !(e.block in s.base && s.base[e.block] == e.data)
  }

  /** Nothing has spoilt the image that step `k` made: no block of the base was changed, or
      the blocks written fit in the snapshot LV. */
  ghost predicate Unspoilt(r: Run, k: nat, n: nat)
    requires r.Valid() && k < |r.steps| && n <= |r.steps|
  {
    if r.steps[k].LvCreate? then |Rewritten(r, k + 1, n)| <= r.steps[k].room
    else forall j | k < j < n :: !Spoils(r.states[j], r.steps[j])
  }

  predicate Shielded(s: State, image: Disk) {
    s.base == image && s.job == NoJob
  }

  lemma ShieldHoldsIff(s: State, e: Event, image: Disk)
    requires Shielded(s, image) && Enabled(s, e) && Ambient(e)
    ensures Shielded(Apply(s, e), image) <==> !Spoils(s, e)
    ensures Apply(s, e).base == image <==> !Spoils(s, e)
  {
    if Spoils(s, e) {
      assert Apply(s, e).base[e.block] == e.data;
    } else if e.Write? && s.act == OnBase {
      assert s.base[e.block := e.data] == s.base;
    }
  }

  lemma {:induction false} ShieldedUpTo(r: Run, k: nat, i: nat, image: Disk)
    requires r.Valid() && k <= i <= |r.steps| && Shielded(r.states[k], image)
    requires forall j | k <= j < i :: Ambient(r.steps[j]) && !Spoils(r.states[j], r.steps[j])
    ensures Shielded(r.states[i], image)
    decreases i
  {
    if k < i {
      ShieldedUpTo(r, k, i - 1, image);
      assert r.StepAt(i - 1);
      ShieldHoldsIff(r.states[i - 1], r.steps[i - 1], image);
    }
  }

  lemma {:induction false} FirstSpoil(r: Run, k: nat, j: nat, n: nat, image: Disk) returns (i: nat)
    requires r.Valid() && k < j < n <= |r.steps| && Spoils(r.states[j], r.steps[j])
    requires Shielded(r.states[k + 1], image) && forall j | k < j < n :: Ambient(r.steps[j])
    ensures k < i <= n && r.states[i].base != image
    decreases j
  {
    if m :| k < m < j && Spoils(r.states[m], r.steps[m]) {
      i := FirstSpoil(r, k, m, n, image);
    } else {
      ShieldedUpTo(r, k + 1, j, image);
      assert r.StepAt(j);
      ShieldHoldsIff(r.states[j], r.steps[j], image);
      i := j + 1;
    }
  }

  lemma SavedStep(s: State, e: Event)
    requires Enabled(s, e) && Ambient(e)
    ensures var t := Apply(s, e); t.snapLv == s.snapLv && t.room == s.room && t.cow == s.cow + Rewrites(s, e)
  {
    match e
    case Write(_, _) =>
    case JobCopy(_) =>
    case _ =>
  }

  /** What a snapshot LV has to save is what was written since it was made. */
  lemma {:induction false} SavedIsRewritten(r: Run, k: nat, i: nat)
    requires r.Valid() && k < i <= |r.steps| && r.steps[k].LvCreate?
    requires forall j | k < j < i :: Ambient(r.steps[j])
    ensures var s := r.states[i];
            s.snapLv == Some(r.states[k].base) && s.room == r.steps[k].room && s.cow == Rewritten(r, k + 1, i)
    decreases i
  {
    assert r.StepAt(i - 1);
    if k < i - 1 {
      SavedIsRewritten(r, k, i - 1);
      RewrittenNext(r, k + 1, i - 1);
      SavedStep(r.states[i - 1], r.steps[i - 1]);
    } else {
      assert Rewritten(r, k + 1, k + 1) == {};
    }
  }

  /** Point in time, exactly: if step `k` of a run takes a snapshot of the guest's disk and
      only ambient events follow up to `n`, the image is that disk all the time, whatever
      the guest writes, if and only if nothing spoils it.  For a snapshot LV that means
      that no more distinct blocks are written than it can save. */
  lemma ImageIsPointInTimeIff(r: Run, k: nat, n: nat)
    requires r.Valid() && Consistent(r.First()) && k < n <= |r.steps|
    requires r.steps[k] == Snapshot || r.steps[k].LvCreate?
    requires r.states[k].base == r.states[k].guest
    requires forall j | k < j < n :: Ambient(r.steps[j])
    ensures (forall i | k < i <= n :: Image(r.states[i], r.steps[k].LvCreate?) == Some(r.states[k].guest))
       <==> Unspoilt(r, k, n)
  {
    if r.steps[k].LvCreate? {
      LvIsPointInTimeIff(r, k, n);
    } else {
      OverlayIsPointInTimeIff(r, k, n);
    }
  }

  lemma LvIsPointInTimeIff(r: Run, k: nat, n: nat)
    requires r.Valid() && k < n <= |r.steps| && r.steps[k].LvCreate?
    requires forall j | k < j < n :: Ambient(r.steps[j])
    ensures (forall i | k < i <= n :: Image(r.states[i], true) == Some(r.states[k].base)) <==> Unspoilt(r, k, n)
  {
    forall i | k < i <= n
      ensures Image(r.states[i], true) == Some(r.states[k].base) <==> |Rewritten(r, k + 1, i)| <= r.steps[k].room
      ensures |Rewritten(r, k + 1, i)| <= |Rewritten(r, k + 1, n)|
    {
      SavedIsRewritten(r, k, i);
      FewerElements(Rewritten(r, k + 1, i), Rewritten(r, k + 1, n));
    }
    hide Rewritten;
    assert Image(r.states[n], true) == Some(r.states[k].base) <==> Unspoilt(r, k, n);
  }

  lemma OverlayIsPointInTimeIff(r: Run, k: nat, n: nat)
    requires r.Valid() && Consistent(r.First()) && k < n <= |r.steps| && r.steps[k] == Snapshot
    requires r.states[k].base == r.states[k].guest && forall j | k < j < n :: Ambient(r.steps[j])
    ensures (forall i | k < i <= n :: Image(r.states[i], false) == Some(r.states[k].guest)) <==> Unspoilt(r, k, n)
  {
    var image := r.states[k].guest;
    RunsStayConsistent(r, k);
    assert r.StepAt(k);
    if Unspoilt(r, k, n) {
      forall i | k < i <= n ensures Image(r.states[i], false) == Some(image) {
        ShieldedUpTo(r, k + 1, i, image);
      }
    } else {
      var j :| k < j < n && Spoils(r.states[j], r.steps[j]);
      var i := FirstSpoil(r, k, j, n, image);
      assert Image(r.states[i], false) != Some(image);
    }
  }

  lemma {:induction false} OffTheBase(r: Run, k: nat, i: nat)
    requires r.Valid() && Consistent(r.First()) && AllSheltered(r) && k < i <= |r.steps| && r.steps[k] == Snapshot
    requires forall j | k < j < i :: Ambient(r.steps[j])
    ensures r.states[i].file && r.states[i].act != OnBase && r.states[i].job == NoJob
    decreases i
  {
    assert r.StepAt(i - 1);
    if k < i - 1 {
      OffTheBase(r, k, i - 1);
    } else {
      RunsStayConsistent(r, k);
    }
  }

  /** The overlay backup of a disciplined run in a sheltering environment, from end to end:
      the image stays the guest's disk at the instant of the snapshot. */
  lemma ShelteredImageIsPointInTime(r: Run, k: nat, n: nat)
    requires r.Valid() && Clean(r.First()) && Disciplined(r) && AllSheltered(r)
    requires k < n <= |r.steps| && r.steps[k] == Snapshot && forall j | k < j < n :: Ambient(r.steps[j])
    ensures forall i | k < i <= n :: Image(r.states[i], false) == Some(r.states[k].guest)
  {
    BackupsNeverLoseWrites(r);
    assert Good(r.states[k]) && r.StepAt(k);
    forall j | k < j < n ensures !Spoils(r.states[j], r.steps[j]) {
      OffTheBase(r, k, j);
    }
    OverlayIsPointInTimeIff(r, k, n);
  }

  /** So does a snapshot LV of a disk without an overlay, exactly while what is written
      fits in it. */
  lemma ShelteredLvIsPointInTimeIff(r: Run, k: nat, n: nat)
    requires r.Valid() && Clean(r.First()) && Disciplined(r) && AllSheltered(r)
    requires k < n <= |r.steps| && r.steps[k].LvCreate? && forall j | k < j < n :: Ambient(r.steps[j])
    requires !r.states[k].file
    ensures (forall i | k < i <= n :: Image(r.states[i], true) == Some(r.states[k].guest))
       <==> |Rewritten(r, k + 1, n)| <= r.steps[k].room
  {
    BackupsNeverLoseWrites(r);
    TrackedUpTo(r, k);
    assert Good(r.states[k]);
    ImageIsPointInTimeIff(r, k, n);
  }

  /** What a backup without a snapshot reads at a moment when no write is lost: the disk the
      guest sees, unless an overlay holds blocks that the base does not. */
  lemma BaseIsGuestsIff(s: State)
    requires Good(s)
    ensures Image(s, false) == Some(s.guest) <==>
            s.act == OnBase || (s.act == Off && !s.file) || Drained(s)
  {
  }

  // ----- the runs the theorem has to exclude

  lemma Extended(r: Run, e: Event) returns (longer: Run)
    requires r.Valid() && Disciplined(r) && Enabled(r.Last(), e) && Allowed(r.Last(), e)
    ensures longer.Valid() && Disciplined(longer) && longer.First() == r.First()
    ensures longer == r.Then(e) && longer.steps == r.steps + [e] && longer.states == r.states + [Apply(r.Last(), e)]
  {
    longer := r.Then(e);
    forall i | 0 <= i < |longer.steps|
      ensures longer.StepAt(i) && Allowed(longer.states[i], longer.steps[i])
    {
      assert i < |r.steps| ==> r.StepAt(i);
    }
  }

  const FRESH := State(map[], map[], false, OnBase, NoJob, 0, false, None, 0, {}, false, false, map[])

  lemma SnapshotTaken() returns (r: Run)
    ensures r.Valid() && r.First() == FRESH && Disciplined(r)
    ensures r.Last()
         == State(map[0 := 1], map[0 := 2], true, OnOverlay, NoJob, 0, false, None, 0, {0}, false, false, map[0 := 2])
  {
    r := Run([], [FRESH]);
    r := Extended(r, Write(0, 1));
    r := Extended(r, Snapshot);
    r := Extended(r, Write(0, 2));
  }

  lemma CommitUnderWay() returns (r: Run)
    ensures r.Valid() && r.First() == FRESH && Disciplined(r)
    ensures r.Last() == State(map[0 := 2], map[0 := 2], true, OnOverlay, Job(true, true), 0, false, None, 0, {0},
                              false, false, map[0 := 2])
  {
    r := SnapshotTaken();
    r := Extended(r, JobStart);
    r := Extended(r, JobCopy(0));
    r := Extended(r, JobReady);
    r := Extended(r, JobComplete);
  }

  lemma StoppedInTheWindow() returns (r: Run)
    ensures r.Valid() && r.First() == FRESH && Disciplined(r)
    ensures r.Last() == State(map[0 := 3], map[0 := 2], true, Off, NoJob, 0, false, None, 0, {0}, true, false,
                              map[0 := 3])
  {
    r := CommitUnderWay();
    r := Extended(r, JobPivot);
    r := Extended(r, Write(0, 3));
    r := Extended(r, Stop);
  }

  /** A stop between the pivot and the unlink: the recovery merges the stale overlay over
      what the guest wrote to the base afterwards. */
  lemma StaleOverlayLosesWrite() returns (r: Run)
    ensures r.Valid() && Clean(r.First()) && Disciplined(r)
    ensures r.Last().act == OnBase && r.Last().guest == map[0 := 3] && r.Last().base == map[0 := 2]
  {
    r := StoppedInTheWindow();
    r := Extended(r, OfflineCommit);
    r := Extended(r, Unlink);
    r := Extended(r, Start);
  }

  /** QEMU dying while it runs on the overlay and respawned by procd, without recovery. */
  lemma RespawnLosesWrite() returns (r: Run)
    ensures r.Valid() && Clean(r.First()) && Disciplined(r)
    ensures r.Last().act == OnBase && r.Last().guest == map[0 := 2] && r.Last().base == map[0 := 1]
  {
    r := SnapshotTaken();
    r := Extended(r, Stop);
    r := Extended(r, Respawn);
  }

  lemma UnlinkedWhileActive() returns (r: Run)
    ensures r.Valid() && r.First() == FRESH && Disciplined(r)
    ensures r.Last()
         == State(map[0 := 2], map[0 := 3], false, OnOverlay, NoJob, 0, false, None, 0, {0}, false, true, map[0 := 3])
  {
    r := CommitUnderWay();
    r := Extended(r, Write(0, 3));
    r := Extended(r, JobFail);
    r := Extended(r, Unlink);
  }

  /** A commit job that fails after it accepted block-job-complete looks finished, so the
      overlay the guest still runs on is unlinked. */
  lemma AbortedJobLosesWrite() returns (r: Run)
    ensures r.Valid() && Clean(r.First()) && Disciplined(r)
    ensures r.Last().act == OnBase && r.Last().guest == map[0 := 3] && r.Last().base == map[0 := 2]
  {
    r := UnlinkedWhileActive();
    r := Extended(r, Stop);
    r := Extended(r, Start);
  }

  /** A respawned guest writes to the base the backup is reading: an image that is spoilt. */
  lemma RespawnChangesImage() returns (r: Run)
    ensures r.Valid() && r.First() == FRESH && r.steps == [Snapshot, Stop, Respawn, Write(0, 2)]
    ensures Spoils(r.states[3], r.steps[3])
    ensures Image(r.states[1], false) == Some(FRESH.guest) != Image(r.Last(), false)
  {
    r := Run([], [FRESH]);
    r := Extended(r, Snapshot);
    r := Extended(r, Stop);
    r := Extended(r, Respawn);
    r := Extended(r, Write(0, 2));
    assert r.StepAt(0) && r.StepAt(1) && r.StepAt(2);
    assert 0 in r.Last().base;
  }

  /** A running guest rewrites one block more than the snapshot LV can save. */
  lemma OverfullLvIsInvalid() returns (r: Run)
    ensures r.Valid() && r.First() == FRESH && r.steps == [LvCreate(1), Write(0, 1), Write(1, 1)]
    ensures Image(r.states[1], true) == Some(FRESH.guest) == Image(r.states[2], true) && Image(r.Last(), true) == None
  {
    r := Run([], [FRESH]);
    r := Extended(r, LvCreate(1));
    r := Extended(r, Write(0, 1));
    r := Extended(r, Write(1, 1));
    assert r.StepAt(0) && r.StepAt(1) && r.StepAt(2);
    assert r.Last().cow == {0, 1} && |{0, 1}| == 2;
  }
}
