/** pbs.helper's job runner around a consistent backup: Healthchecks pings before and
    after, a Gotify message, and one exit code for everything. */
module Job {
  import opened Backup
  import opened Wrappers

  datatype Message = StartPing | ResultPing(rc: int) | Gotify

  datatype HttpReply = HttpReply(failed: bool, status: int)

  predicate HttpOk(r: HttpReply) {
    !r.failed && 200 <= r.status < 300
  }

  const RETRIES := 3

  class Http {
    const replies: seq<HttpReply>   // what the servers answer, request by request
    var sent: seq<Message>
    var delivered: seq<Message>     // messages answered with a 2xx status

    constructor (replies: seq<HttpReply>)
      ensures sent == [] && delivered == [] && this.replies == replies
    {
      this.replies, sent, delivered := replies, [], [];
    }

    /** The answer to the `n`-th request; beyond the script the server is unreachable. */
    predicate Answers(n: nat)
    {
      n < |replies| && HttpOk(replies[n])
    }

    method Post(m: Message) returns (ok: bool)
      modifies this
      ensures sent == old(sent) + [m] && ok == Answers(|old(sent)|)
      ensures var n := |old(sent)|; ok <==> n < |replies| && !replies[n].failed && replies[n].status / 100 == 2
      ensures delivered == if ok then old(delivered) + [m] else old(delivered)
    {
      ok := Answers(|sent|);
      sent := sent + [m];
      if ok {
        delivered := delivered + [m];
      }
    }

    /** Send a ping, up to three times until it gets through. */
    method HcPing(configured: bool, m: Message) returns (ok: bool)
      modifies this
      ensures ok <==> !configured || exists k | |old(sent)| <= k < |old(sent)| + 3 :: Answers(k)
      ensures ok ==> delivered == if configured then old(delivered) + [m] else old(delivered)
      ensures !ok ==> delivered == old(delivered)
      ensures old(sent) <= sent && |sent| <= |old(sent)| + 3 && (configured <==> |sent| > |old(sent)|)
      ensures forall j | |old(sent)| <= j < |sent| :: sent[j] == m
    {
      if !configured {
        return true;
      }
      for i := 0 to RETRIES
        invariant |sent| == |old(sent)| + i && old(sent) <= sent && delivered == old(delivered)
        invariant forall j | |old(sent)| <= j < |sent| :: sent[j] == m
        invariant forall k | |old(sent)| <= k < |old(sent)| + i :: !Answers(k)
      {
        ok := Post(m);
        if ok {
          return;
        }
      }
      return false;
    }

    method GotifySend(configured: bool) returns (ok: bool)
      modifies this
      ensures ok <==> !configured || Answers(|old(sent)|)
      ensures sent == if configured then old(sent) + [Gotify] else old(sent)
      ensures delivered == if configured && ok then old(delivered) + [Gotify] else old(delivered)
    {
      if !configured {
        return true;
      }
      ok := Post(Gotify);
    }

    /** Both result notifications, whatever becomes of the other one. */
    method Report(hc: bool, gotify: bool, rc: int) returns (code: int)
      modifies this
      ensures old(sent) <= sent && old(delivered) <= delivered
      ensures gotify ==> Gotify in sent[|old(sent)|..]
      ensures hc ==> ResultPing(rc) in sent[|old(sent)|..]
      ensures var got := delivered[|old(delivered)|..];
              code == if rc != 0 then rc
                      else if (hc ==> ResultPing(rc) in got) && (gotify ==> Gotify in got) then 0 else 1
    {
      var hcOk := HcPing(hc, ResultPing(rc));
      ghost var pinged, got := sent, delivered;
      var gotifyOk := GotifySend(gotify);
      assert hc ==> sent[|old(sent)|] == ResultPing(rc);
      assert hc && hcOk ==> delivered[|old(delivered)|] == ResultPing(rc);
      assert gotify ==> sent[|pinged|] == Gotify;
      assert gotify && gotifyOk ==> delivered[|got|] == Gotify;
      assert hc && !hcOk ==> got == old(delivered);
      code := if rc != 0 then rc else if hcOk && gotifyOk then 0 else 1;
    }
  }

  lemma InTurn(a: seq<Message>, b: seq<Message>, c: seq<Message>)
    requires a <= b <= c
    ensures c[|a|..] == b[|a|..] + c[|b|..]
  {
  }

  /** Everything an exit code 0 stands for. */
  ghost predicate Succeeded(h: Host, plan: Plan, notes: seq<Note>, told: seq<Message>, hc: bool, gotify: bool)
    reads h
  {
    && h.client == Some(0)
    && (h.snapped && !plan.lvm ==> !CommitNoted(notes))
    && (h.froze ==> h.thawed)
    && (hc ==> ResultPing(0) in told)
    && (gotify ==> Gotify in told)
  }

  /** One backup job: the exit code is 0 exactly when the client succeeded, a confirmed
      overlay was committed, a confirmed freeze was confirmed as thawed and every configured
      result notification was delivered.  Freeze and thaw took effect then if the agent had
      answered in time. */
  method RunJob(h: Host, plan: Plan, http: Http, hc: bool, gotify: bool) returns (code: int, notes: seq<Note>)
    requires h.Valid() && h.qmpOpen == 0 && h.agentOpen == 0
    modifies h, http
    ensures h.Follows(old(h.run)) && h.qmpOpen == 0 && h.agentOpen == 0 && h.client.Some?
    ensures Settled(h, plan, Outcome(Verdict(h.client.value, CommitNoted(notes), h.froze && !h.thawed), notes))
    ensures old(http.delivered) <= http.delivered && old(http.sent) <= http.sent
    ensures code == 0 <==> Succeeded(h, plan, notes, http.delivered[|old(http.delivered)|..], hc, gotify)
    ensures code == 0 && h.froze && !h.late ==> h.ga.took.Some? && h.ga.melted
    ensures h.client != Some(0) ==> code == h.client.value
    ensures gotify ==> Gotify in http.sent[|old(http.sent)|..]
    // the start is announced first, and the result of the backup afterwards
    ensures hc ==> |http.sent| > |old(http.sent)| && http.sent[|old(http.sent)|] == StartPing
    ensures hc ==> ResultPing(Verdict(h.client.value, CommitNoted(notes), h.froze && !h.thawed)) in
                     http.sent[|old(http.sent)|..]
    ensures hc && code != 1 ==> ResultPing(code) in http.sent[|old(http.sent)|..]
  {
    hide PointInTime;
    hide Steps;
    hide Clearing;
    hide AtRest;
    hide Host.Recorded;
    hide Host.AgentKnown;
    hide Host.EffectsCounted;
    hide Host.Counted;
    hide Host.Scripted;
    hide Host.Attempted;
    hide Host.Asked;
    var _ := http.HcPing(hc, StartPing);
    ghost var s, d := http.sent, http.delivered;
    var out := ConsistentBackup(h, plan);
    notes := out.notes;
    code := http.Report(hc, gotify, out.rc);
    InTurn(old(http.delivered), d, http.delivered);
    InTurn(old(http.sent), s, http.sent);
  }
}
