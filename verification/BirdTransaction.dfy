/** rpcd-mod-bird's `set_ospf_cost`: derive a configuration, have BIRD check it, promote
    it and apply it, one caller at a time. */
module BirdTransaction {
  import opened Wrappers
  import opened Text
  import opened BirdConfig
  import opened BirdReply

  datatype Command = Check | Apply

  /** The ubus answer. */
  datatype Answer = Answer(code: nat, stdout: string)

  // ----- what a promotion keeps

  /** The blocks of the interfaces served do not overlap. */
  ghost predicate Tidy(text: string, names: set<string>) {
    var lines := Split(text, '\n');
    forall i, j | i in names && j in names && i != j && Locate(lines, i).Ok? && Locate(lines, j).Ok? ::
      Disjoint(Locate(lines, i).value, Locate(lines, j).value)
  }

  /** Every cost on record reads back from the text. */
  ghost predicate Carries(text: string, costs: map<string, nat>) {
    forall i | i in costs :: CostOf(Split(text, '\n'), i) == Some(costs[i])
  }

  lemma EditKeepsTidy(text: string, names: set<string>, iface: string, cost: int)
    requires Tidy(text, names) && EditText(text, iface, cost).Ok?
    ensures Tidy(EditText(text, iface, cost).value, names)
  {
    var lines := Split(text, '\n');
    EditedLines(text, iface, cost);
    var after := Edit(lines, iface, cost).value;
    hide Edit;
    hide Locate;
    hide Join;
    hide Disjoint;
    hide Moved;
    forall i, j | i in names && j in names && i != j && Locate(after, i).Ok? && Locate(after, j).Ok?
      ensures Disjoint(Locate(after, i).value, Locate(after, j).value)
    {
      EditMovesBlocks(lines, iface, cost, i);
      EditMovesBlocks(lines, iface, cost, j);
      MovedApart(Locate(lines, i).value, Locate(lines, j).value, Locate(lines, iface).value);
    }
  }

  lemma MovedApart(a: Block, b: Block, edited: Block)
    requires Disjoint(a, b)
    ensures Disjoint(Moved(a, edited), Moved(b, edited))
  {
  }

  /** An edit records the new cost and keeps every other cost on record. */
  lemma EditKeepsCosts(text: string, names: set<string>, costs: map<string, nat>, iface: string, cost: int)
    requires Tidy(text, names) && Carries(text, costs) && iface in names && costs.Keys <= names
    requires EditText(text, iface, cost).Ok?
    ensures Carries(EditText(text, iface, cost).value, costs[iface := cost])
  {
    var lines := Split(text, '\n');
    EditedLines(text, iface, cost);
    var after := Edit(lines, iface, cost).value;
    hide Edit;
    hide Join;
    hide Conflict;
    forall i | i in costs[iface := cost] ensures CostOf(after, i) == Some(costs[iface := cost][i]) {
      EditReadsBack(lines, iface, cost, i);
      if i != iface {
        DisjointBlocksAreFree(lines, Locate(lines, iface).value, Locate(lines, i).value);
      }
    }
  }

  /** The lock is taken, the derived configuration cannot be written, or not be renamed. */
  datatype Fault = Busy | NoWrite | NoRename

  /** A scripted exchange: every file and socket operation works, but for one fault if there
      is one, and of BIRD's answer to `configure check` the first `cut` characters arrive. */
  datatype Script = Script(check: Reply, cut: nat, apply: Reply, fault: Option<Fault>) {
    predicate Fits() {
      check.Conforms() && apply.Conforms() && cut <= |check.Data()|
    }

    /** The code of the answer, once the configuration is edited. */
    function CodeThen(): nat
      requires Fits()
    {
      if fault == Some(NoWrite) then 4
      else if ReplyCode(Arrives()) >= 1000 then 1
      else if fault == Some(NoRename) then 4
      else if apply.StatusCode() < 1000 then 0 else 1
    }

    /** What BIRD's own parser accepts of a checked text. */
    function Accepts(text: string): set<string>
      requires Fits()
    {
      if check.StatusCode() < 1000 then {text} else {}
    }

    function Arrives(): string
      requires Fits()
    {
      check.Data()[..cut]
    }
  }

  class Router {
    /** /etc/bird.conf, /tmp/etc/bird.conf and /tmp/etc/.bird.next.conf. */
    var pristine: Option<string>
    var runtime: Option<string>
    var next: Option<string>
    /** The configuration BIRD runs. */
    var running: string
    /** Open handles of the lock file; closing one releases its lock. */
    var handles: nat
    /** Code of the last reply. */
    var birdLastCode: nat
    /** Texts BIRD's own parser accepted in `configure check`. */
    ghost var passed: set<string>
    /** The cost last promoted for each interface. */
    ghost var promoted: map<string, nat>
    /** The last reply, and the reply to `configure check` the runtime configuration was
        promoted on. */
    ghost var lastReply: string
    ghost var promotedOn: string
    const script: Option<Script>

    constructor (pristine: Option<string>, running: string, script: Option<Script>)
      ensures this.pristine == pristine && runtime == None && handles == 0 && promoted == map[]
      ensures passed == {} && this.script == script
    {
      this.pristine, this.running, this.script := pristine, running, script;
      runtime, next, handles, birdLastCode := None, None, 0, 0;
      passed, promoted, lastReply, promotedOn := {}, map[], "", "";
    }

    ghost predicate Valid()
    {
      script.Some? ==> script.value.Fits()
    }

    // ----- files, lock and socket

    method AcquireReconfigLock() returns (ok: bool)
      modifies `handles
      ensures handles == old(handles) + if ok then 1 else 0
      ensures script.Some? ==> (ok <==> script.value.fault != Some(Busy))
    {
      var usable: bool := *;
      if !usable && script == None {
        return false;
      }
      handles := handles + 1;
      var locked: bool := *;
      locked := if script.Some? then script.value.fault != Some(Busy) else locked;
      if locked {
        return true;
      }
      handles := handles - 1;
      return false;
    }

    /** The runtime configuration, or the default if there is none or it cannot be read. */
    method ReadSource() returns (src: Option<string>)
      ensures src.Some? ==> src == runtime || src == pristine
      ensures runtime.None? && src.Some? ==> src == pristine
      ensures script.Some? ==> src == if runtime.Some? then runtime else pristine
    {
      var fails: bool := *;
      src := if fails && script == None then None else runtime;
      if src == None {
        fails := *;
        src := if fails && script == None then None else pristine;
      }
    }

    method WriteNext(text: string) returns (ok: bool)
      modifies `next
      ensures ok ==> next == Some(text)
      ensures script.Some? ==> (ok <==> script.value.fault != Some(NoWrite))
    {
      ok := *;
      ok := if script.Some? then script.value.fault != Some(NoWrite) else ok;
      var garbage: Option<string> := *;
      next := if ok then Some(text) else garbage;
    }

    /** Read up to 256 chunks, until the reply is over or the connection ends: it is not
        given up before. */
    method Receive(data: string) returns (reply: string, ghost chunks: nat, ghost ended: bool)
      ensures reply <= data && chunks <= 256
      ensures ended || chunks == 256 || ReplyComplete(reply)
    {
      hide ReplyComplete;
      reply, chunks, ended := "", 0, false;
      for i := 0 to 256
        invariant |reply| <= |data| && reply == data[..|reply|] && chunks == i && !ended
      {
        var upTo: int := *;
        upTo := if |reply| <= upTo <= |data| then upTo else |data|;
        var chunk := data[|reply|..upTo];
        if chunk == "" {
          ended := true;
          break;
        }
        reply, chunks := reply + chunk, chunks + 1;
        assert reply == data[..upTo];
        if ReplyComplete(reply) {
          break;
        }
      }
    }

    /** One command and its reply, or nothing when the exchange fails: BIRD may have acted
        on the command all the same.  A code below 1000 is BIRD's consent if the reply is
        complete, which the reply itself shows. */
    method BirdRaw(command: Command) returns (lines: Option<seq<string>>)
      requires Valid() && (command.Check? ==> next.Some?) && (command.Apply? ==> runtime.Some?)
      modifies `running, `birdLastCode, `passed, `lastReply
      ensures command.Check? ==> running == old(running) && old(passed) <= passed <= old(passed) + {next.value}
      ensures command.Apply? ==> passed == old(passed) && (running == old(running) || running == runtime.value)
      ensures lines.Some? ==> birdLastCode == ReplyCode(lastReply) && lines.value == Clean(Split(lastReply, '\n'))
      ensures lines.Some? && birdLastCode < 1000 && ReplyComplete(lastReply) ==>
                match command { case Check => next.value in passed case Apply => running == runtime.value }
      ensures command.Check? && script.Some? ==> lines.Some? && lastReply == script.value.Arrives()
      ensures command.Check? && script.Some? ==> passed == old(passed) + script.value.Accepts(next.value)
      ensures command.Apply? && script.Some? ==>
                lines.Some? && lastReply == script.value.apply.Data() && birdLastCode == script.value.apply.StatusCode()
    {
      hide *;
      var connected: bool := *;
      if !connected && script == None {
        return None;
      }
      var greeted := Banner();
      if !greeted && script == None {
        return None;
      }
      var r := Act(command);
      var fails: bool := *;
      if fails && script == None {
        return None;
      }
      var reply, _, _ := Receive(r.Data());
      if script.Some? {
        reply := CutReply(command, r);
      }
      WholeReply(r);
      PrefixIsWhole(r, reply);
      lastReply := reply;
      birdLastCode := ReplyCode(reply);
      var res := CleanReply(reply);
      return Some(res);
    }

    method CutReply(command: Command, r: Reply) returns (reply: string)
      requires Valid() && script.Some? && r == if command.Check? then script.value.check else script.value.apply
      ensures reply <= r.Data() && reply == if command.Check? then script.value.Arrives() else r.Data()
    {
      reply := if command.Check? then r.Data()[..script.value.cut] else r.Data();
    }

    /** Discard the banner: up to eight chunks, until a line is complete. */
    method Banner() returns (ok: bool) {
      for i := 0 to 8 {
        var chunk: string := *;
        if chunk == "" {
          return false;
        }
        if '\n' in chunk {
          break;
        }
      }
      return true;
    }

    /** BIRD's side: a whole reply, whose code is below 1000 exactly when the file passes
        (and, for `configure`, takes effect). */
    method Act(command: Command) returns (r: Reply)
      requires Valid() && (command.Check? ==> next.Some?) && (command.Apply? ==> runtime.Some?)
      modifies `running, `passed
      ensures r.Conforms()
      ensures command.Check? ==> running == old(running)
      ensures command.Check? ==> passed == if r.StatusCode() < 1000 then old(passed) + {next.value} else old(passed)
      ensures command.Apply? ==> passed == old(passed)
      ensures command.Apply? ==> running == if r.StatusCode() < 1000 then runtime.value else old(running)
      ensures command.Check? && script.Some? ==>
                r == script.value.check && passed == old(passed) + script.value.Accepts(next.value)
      ensures command.Apply? && script.Some? ==> r == script.value.apply
    {
      AnyReply();
      r :| r.Conforms();
      if script.Some? {
        r := if command.Check? then script.value.check else script.value.apply;
      }
      if r.StatusCode() < 1000 {
        match command
        case Check => passed := passed + {next.value};
        case Apply => running := runtime.value;
      }
    }

    // ----- the transaction

    /** The configuration an edit starts from. */
    ghost function Source(): Option<string>
      reads this
    {
      if runtime.Some? then runtime else pristine
    }

    /** Set one cost.  `done` tells whether a derived configuration was promoted, `misread`
        whether an existing runtime configuration could not be read for it. */
    method SetOspfCost(iface: string, cost: int) returns (a: Answer, ghost done: bool, ghost misread: bool)
      requires Valid()
      modifies this
      ensures pristine == old(pristine) && handles == old(handles) && old(passed) <= passed
      ensures a.code == 2 <==> iface == "" || cost < 1 || cost > 65535
      ensures a.code == 3 ==> exists src :: EditText(src, iface, cost).Err?
                                && (Some(src) == old(runtime) || Some(src) == old(pristine))
      ensures !done ==> runtime == old(runtime) && promoted == old(promoted) && running == old(running)
      ensures !done ==> 1 <= a.code <= 5 && promotedOn == old(promotedOn)
      ensures done ==> a.code <= 1 && runtime.Some?
      ensures done ==> promoted == (if misread then map[] else old(promoted))[iface := cost]
      ensures done ==> exists src :: EditText(src, iface, cost) == Ok(runtime.value)
                         && Some(src) == if misread then old(pristine) else old(Source())
      ensures done ==> ReplyCode(promotedOn) < 1000 && (ReplyComplete(promotedOn) ==> runtime.value in passed)
      ensures running == old(running) || (done && running == runtime.value)
      ensures a.code == 0 ==> ReplyComplete(lastReply) ==> running == runtime.value
      ensures a.code == 0 ==> a.stdout == Join(Clean(Split(lastReply, '\n')), '\n')
      // what a script comes to
      ensures script.Some? && a.code != 2 ==>
                a.code == if script.value.fault == Some(Busy) then 5
                          else if old(Source()).None? then 4
                          else if EditText(old(Source()).value, iface, cost).Err? then 3
                          else script.value.CodeThen()
      ensures script.Some? && a.code != 2 && script.value.fault == None && old(Source()).Some?
              && EditText(old(Source()).value, iface, cost).Ok? ==>
                && (done <==> ReplyCode(script.value.Arrives()) < 1000)
                && (done ==> promotedOn == script.value.Arrives())
                && passed == old(passed) + script.value.Accepts(EditText(old(Source()).value, iface, cost).value)
    {
      hide EditText;
      hide ReplyCode;
      hide ReplyComplete;
      done, misread := false, false;
      if iface == "" || cost < 0 {
        return Answer(2, ""), false, false;
      }
      if cost < 1 || cost > 65535 {
        return Answer(2, "cost must be in range 1-65535"), false, false;
      }
      var locked := AcquireReconfigLock();
      if !locked {
        return Answer(5, "another BIRD reconfiguration in progress"), false, false;
      }
      var src := ReadSource();
      if src == None {
        handles := handles - 1;
        return Answer(4, "cannot read the configuration"), false, false;
      }
      misread := src != Source();
      var r := EditOspfCost(src.value, iface, cost);
      if r.Err? {
        handles := handles - 1;
        return Answer(3, ""), false, misread;
      }
      var written := WriteNext(r.value);
      if !written {
        handles := handles - 1;
        return Answer(4, "cannot write the next configuration"), false, misread;
      }
      a, done := CheckAndApply(iface, cost, misread);
      handles := handles - 1;
    }

    /** The part after the derived configuration is written: check, promote, apply. */
    method CheckAndApply(ghost iface: string, ghost cost: nat, ghost misread: bool)
      returns (a: Answer, ghost done: bool)
      requires Valid() && next.Some?
      modifies `running, `birdLastCode, `passed, `lastReply, `promotedOn, `next, `runtime, `promoted
      ensures old(passed) <= passed
      ensures !done ==> runtime == old(runtime) && promoted == old(promoted) && running == old(running)
                        && a.code in {1, 4} && promotedOn == old(promotedOn)
      ensures done ==> runtime == old(next) && a.code <= 1
      ensures done ==> promoted == (if misread then map[] else old(promoted))[iface := cost]
      ensures done ==> ReplyCode(promotedOn) < 1000 && (ReplyComplete(promotedOn) ==> runtime.value in passed)
      ensures running == old(running) || (done && running == runtime.value)
      ensures a.code == 0 ==> ReplyComplete(lastReply) ==> running == runtime.value
      ensures a.code == 0 ==> a.stdout == Join(Clean(Split(lastReply, '\n')), '\n')
      ensures script.Some? ==>
                && (done <==> ReplyCode(script.value.Arrives()) < 1000 && script.value.fault != Some(NoRename))
                && (done ==> promotedOn == script.value.Arrives())
                && passed == old(passed) + script.value.Accepts(old(next).value)
      ensures script.Some? && script.value.fault != Some(NoWrite) ==> a.code == script.value.CodeThen()
    {
      hide ReplyCode;
      hide ReplyComplete;
      hide Clean;
      done := false;
      var check := BirdRaw(Check);
      if check.None? {
        return Answer(1, ""), false;
      }
      if birdLastCode >= 1000 {
        return Answer(1, Join(check.value, '\n')), false;
      }
      var renamed: bool := *;
      renamed := if script.Some? then script.value.fault != Some(NoRename) else renamed;
      if !renamed {
        return Answer(4, "cannot promote the configuration"), false;
      }
      runtime, next := next, None;
      promoted := (if misread then map[] else promoted)[iface := cost];
      promotedOn := lastReply;
      done := true;
      var lines := BirdRaw(Apply);
      if lines.None? {
        return Answer(1, ""), true;
      }
      return Answer(if birdLastCode < 1000 then 0 else 1, Join(lines.value, '\n')), true;
    }

    // ----- runs

    ghost predicate Carried(names: set<string>)
      reads this
    {
      && promoted.Keys <= names
      && (pristine.Some? ==> Tidy(pristine.value, names))
      && (runtime.Some? ==> Tidy(runtime.value, names) && Carries(runtime.value, promoted))
      && (runtime.None? ==> promoted == map[])
    }

    /** The operator forgets all applied costs. */
    method Forget()
      modifies `runtime, `promoted
      ensures runtime == None && promoted == map[]
    {
      runtime, promoted := None, map[];
    }

    /** Any run of calls, with the operator deleting the runtime configuration in between:
        the default is never written, the lock is free again, what is promoted on a complete
        reply has passed BIRD's check, and the runtime configuration carries every cost
        promoted since it was last deleted or could not be read. */
    method Serve(names: set<string>, calls: seq<(string, int)>)
      requires Valid() && Carried(names)
      requires forall c | c in calls :: c.0 in names
      modifies this
      ensures pristine == old(pristine) && handles == old(handles)
      ensures runtime == old(runtime) || runtime.None? || (ReplyComplete(promotedOn) ==> runtime.value in passed)
      ensures Carried(names)
    {
      hide Tidy;
      hide Carries;
      hide ReplyComplete;
      for k := 0 to |calls|
        invariant pristine == old(pristine) && handles == old(handles) && Carried(names)
        invariant (runtime == old(runtime) && promotedOn == old(promotedOn) && old(passed) <= passed)
               || runtime.None? || (ReplyComplete(promotedOn) ==> runtime.value in passed)
      {
        var forget: bool := *;
        if forget {
          Forget();
          continue;
        }
        assert calls[k] in calls;
        var iface, cost := calls[k].0, calls[k].1;
        Call(iface, cost, names);
      }
    }

    method Call(iface: string, cost: int, ghost names: set<string>)
      requires Valid() && iface in names && Carried(names)
      modifies this
      ensures pristine == old(pristine) && handles == old(handles) && old(passed) <= passed && Carried(names)
      ensures (runtime == old(runtime) && promotedOn == old(promotedOn))
           || (runtime.Some? && (ReplyComplete(promotedOn) ==> runtime.value in passed))
    {
      hide Tidy;
      hide Carries;
      hide EditText;
      hide ReplyComplete;
      hide ReplyCode;
      ghost var before, costs := Source(), promoted;
      var a, done, misread := SetOspfCost(iface, cost);
      if done {
        ghost var src :| EditText(src, iface, cost) == Ok(runtime.value)
                      && Some(src) == if misread then pristine else before;
        CostInRange(src, iface, cost);
        EditKeepsTidy(src, names, iface, cost);
        ghost var carried := if misread then map[] else costs;
        if carried == map[] {
          NothingCarried(src, carried);
        }
        EditKeepsCosts(src, names, carried, iface, cost);
      }
    }
  }

  /** For every configuration, every reply that rejects it and every cut of that reply: the
      rejected configuration is promoted exactly if part of the status code is lost, and
      exactly then the code read looks like success.  A complete reply would have told. */
  method RejectedIsPromotedIff(text: string, iface: string, cost: int, reply: Reply, cut: nat)
    returns (router: Router, a: Answer)
    requires EditText(text, iface, cost).Ok? && reply.Conforms() && LowCodes(reply.lines)
    requires reply.StatusCode() >= 1000 && cut <= |reply.Data()|
    ensures router.runtime.None? || router.runtime == Some(EditText(text, iface, cost).value)
    ensures router.passed == {}
    ensures router.runtime.Some? <==> cut < |reply.Data()| - 1 - |reply.status| + 4
    ensures router.runtime.Some? ==> !ReplyComplete(router.promotedOn)
  {
    hide EditText;
    hide ReplyCode;
    hide ReplyComplete;
    CostInRange(text, iface, cost);
    router := new Router(Some(text), "", Some(Script(reply, cut, reply, None)));
    ghost var done, misread;
    a, done, misread := router.SetOspfCost(iface, cost);
    CutReadsAsSuccessIff(reply, cut);
    CompleteIffWhole(reply, cut);
  }

  lemma CostInRange(text: string, iface: string, cost: int)
    requires EditText(text, iface, cost).Ok?
    ensures iface != "" && 1 <= cost <= 65535
  {
  }

  lemma NothingCarried(text: string, costs: map<string, nat>)
    requires costs == map[]
    ensures Carries(text, costs)
  {
  }

  lemma AnyReply()
    ensures exists r: Reply :: r.Conforms()
  {
    assert Reply([], "0001").Conforms();
  }

  lemma PrefixIsWhole(r: Reply, reply: string)
    requires r.Conforms() && reply <= r.Data()
    ensures ReplyComplete(reply) ==> reply == r.Data()
  {
    hide *;
    CompleteIffWhole(r, |reply|);
    assert reply == r.Data()[..|reply|];
    assert r.Data()[..|r.Data()|] == r.Data();
  }
}
