// The review service over its stores: each call, step by step, against what ReviewProtocol says it computes. What the
// calls promise is proved there and in the modules on versions, verdicts, accounts and runs.
module ReviewService {
  import opened Strings
  import opened Sorting
  import opened UnifiedDiff
  import opened PatchApply
  import opened Findings
  import opened Suppression
  import opened ReviewTables
  import P = ReviewProtocol
  import Dedup

  class Service {
    const env: P.Env
    const store: ReviewStore
    const dispositions: DispositionStore

    constructor (env: P.Env, store: ReviewStore, dispositions: DispositionStore)
      ensures this.env == env && this.store == store && this.dispositions == dispositions
    {
      this.env, this.store, this.dispositions := env, store, dispositions;
    }

    /** What the stores hold. */
    function State(): P.Tables
      reads store, dispositions
    {
      P.Tables(store.Rows(), dispositions.rows)
    }

    method Identify(findings: seq<Finding>) returns (identified: seq<Finding>)
      ensures identified == Map(P.Identifying(env), findings)
    {
      identified := [];
      for k := 0 to |findings|
        invariant identified == Map(P.Identifying(env), findings[..k])
      {
        var f := findings[k];
        var quoted := env.redact(f.quotedLine);
        identified := identified
          + [f.(quotedLine := quoted, fingerprint := env.fingerprint(f.ruleId, f.file, quoted))];
        MapNext(P.Identifying(env), findings, k);
      }
      assert findings[..|findings|] == findings;
    }

    /** Mutes what the standing answers mute. */
    method Remember(projectId: nat, findings: seq<Finding>) returns (answered: seq<Finding>)
      ensures answered == P.Answer(env, dispositions.rows, projectId, findings)
    {
      var active := dispositions.ReadActive(env.users, projectId, P.Fingerprints(findings));
      answered := ApplyDispositions(findings, active);
    }

    /** Checks every standing `fixed` claim against what was found; settles them when asked to. */
    method ReconcileFixed(projectId: nat, findings: seq<Finding>, settle: bool)
      returns (flagged: seq<Finding>, confirmed: set<string>, regressed: set<string>)
      modifies dispositions
      ensures regressed == Claimed(old(dispositions.rows), projectId) * P.Fingerprints(findings)
      ensures confirmed == Claimed(old(dispositions.rows), projectId) - regressed
      ensures flagged == Map(P.Regressing(regressed), findings)
      ensures dispositions.rows == if settle then P.Settled(old(dispositions.rows), projectId, confirmed, regressed)
                                   else old(dispositions.rows)
    {
      var claimed := dispositions.ReadClaimed(projectId);
      if claimed == {} {
        flagged, confirmed, regressed := findings, {}, {};
        NothingToSettle(dispositions.rows, projectId);
        assert Map(P.Regressing({}), findings) == findings;
        return;
      }
      regressed := claimed * P.Fingerprints(findings);
      confirmed := claimed - regressed;
      if settle {
        dispositions.Settle(projectId, confirmed, true);
        dispositions.Settle(projectId, regressed, false);
      }
      ghost var after := dispositions.rows;
      flagged := [];
      for k := 0 to |findings|
        invariant dispositions.rows == after
        invariant flagged == Map(P.Regressing(regressed), findings[..k])
      {
        var f := findings[k];
        flagged := flagged + [if f.fingerprint in regressed then f.(regressed := true) else f];
        MapNext(P.Regressing(regressed), findings, k);
      }
      assert findings[..|findings|] == findings;
    }

    /** The deterministic half of a review over one change; settles `fixed` claims only for a review. */
    method Examine(actor: P.Principal, change: P.Change, settle: bool) returns (examined: Result<P.Examined, P.Error>)
      modifies dispositions
      ensures examined == P.Examine(env, actor, change, old(dispositions.rows))
      ensures dispositions.rows == match examined {
          case Ok(x) =>
            if settle then P.Settled(old(dispositions.rows), x.projectId, x.confirmed, x.regressed)
            else old(dispositions.rows)
          case Err(_) => old(dispositions.rows)
        }
    {
      hide Parse, AddedLines, Actionable, ScopedAll, Cap, Filter, P.Answer, P.Settled, Claimed, P.Fingerprints;
      if actor.projectId.None? {
        return Err(P.NotScoped);
      }
      if env.size(change.diff) > env.maxDiffBytes {
        return Err(P.TooLarge);
      }
      var diffs := ParseUnifiedDiff(change.diff);
      if diffs == [] {
        return Err(P.NoChanges);
      }
      var projectId := actor.projectId.value;
      var config := env.config(projectId);
      var trivial := env.trivial(config, change.platform, diffs);
      if trivial.Some? {
        return Err(P.Skipped(trivial.value));
      }
      var added := AddedLines(diffs);
      var findings: seq<Finding> := env.tools(config, change, diffs, added);
      findings := ScopeToDiff(findings, added);
      findings := DropUnactionable(env.patterns, change.files, findings);
      findings := Identify(Filter(P.Enabled(config), findings));
      findings := Remember(projectId, findings);
      assert findings == P.Found(env, config, projectId, change, dispositions.rows);
      var confirmed, regressed;
      findings, confirmed, regressed := ReconcileFixed(projectId, findings, settle);
      var (kept, dropped) := Cap(findings, env.maxFindings);
      return Ok(P.Examined(projectId, config, diffs, added, kept, |dropped|, confirmed, regressed, change.platform));
    }

    /** Writes nothing. */
    method Plan(actor: P.Principal, change: P.Change) returns (plan: Result<P.Plan, P.Error>)
      modifies dispositions
      ensures State() == old(State())
      ensures plan == P.Reply(P.PlanOnly(env, State(), actor, change))
    {
      hide P.Examine;
      var examined := Examine(actor, change, false);
      match examined
      case Err(e) => return Err(e);
      case Ok(x) => return Ok(P.AsPlan(x, None));
    }

    method PlanV1(actor: P.Principal, change: P.Change) returns (plan: Result<P.Plan, P.Error>)
      modifies store, dispositions
      ensures var outcome := P.PlanV1(env, old(State()), actor, change);
        plan == P.Reply(outcome) && State() == P.Committed(old(State()), outcome)
    {
      hide P.Examine, P.Settled, FindingsAdded, StepAdded, P.PlanStepOf;
      var examined := Examine(actor, change, true);
      if examined.Err? {
        return Err(examined.error);
      }
      var x := examined.value;
      var id := store.Create(x.projectId, actor.userId, x.added, |x.diffs|);
      store.AddFindings(id, x.findings);
      store.AddStep(id, P.PlanStepOf(x));
      return Ok(P.AsPlan(x, Some(id)));
    }

    method OwnReview(actor: P.Principal, id: nat) returns (row: Result<ReviewRow, P.Error>)
      ensures row == P.OwnReview(store.Rows(), actor, id)
    {
      if !(1 <= id <= |store.reviews|) {
        return Err(P.NoSuchReview);
      }
      var owner := store.reviews[id - 1];
      if Some(owner.projectId) != actor.projectId {
        return Err(P.OtherProject);
      }
      if actor.viaKey && owner.userId != actor.userId {
        return Err(P.OtherDeveloper);
      }
      return Ok(owner);
    }

    method Shown(id: nat) returns (shown: seq<Finding>)
      ensures shown == P.Shown(store.Rows(), id)
    {
      var stored := store.ReadFindings(id);
      shown := Filter(IsActive, stored);
    }

    method Submit(actor: P.Principal, id: nat, agent: seq<P.AgentFinding>) returns (ruling: Result<P.Ruling, P.Error>)
      modifies store
      ensures var outcome := P.Submit(env, old(State()), actor, id, agent);
        ruling == P.Reply(outcome) && State() == P.Committed(old(State()), outcome)
    {
      hide ComputeVerdict, Dedup.Merged, P.Answer, ScopedAll, Filter, P.Shown, StepAdded, Complete, AgentReplaced,
           FindingsOf, P.FindingsStepOf;
      var owner := OwnReview(actor, id);
      if owner.Err? {
        return Err(owner.error);
      }
      var projectId := owner.value.projectId;
      var config := env.config(projectId);
      var capped := P.Take(agent, config.policy.maxAgentFindings);
      var dropped := |agent| - |capped|;
      var scoped := ScopeToDiff(capped, owner.value.added);
      scoped := Identify(Filter(P.Enabled(config), scoped));
      var stored := store.ReadFindings(id);
      var deterministic := Filter(Dedup.IsDeterministic, stored);
      var final := Dedup.Merge(deterministic, scoped);
      final := Remember(projectId, final);
      var verdict := ComputeVerdict(final, config.policy);
      var agentFinal := Filter(IsAgent, final);
      ghost var j := P.Judge(env, dispositions.rows, projectId, config, deterministic, owner.value.added, agent,
                             owner.value.status == Completed);
      var step := P.FindingsStepOf(|agent|, agentFinal, scoped, dropped, owner.value.status == Completed);
      assert j == P.Judgement(agentFinal, step, verdict);
      store.ReplaceAgentFindings(id, agentFinal);
      store.AddStep(id, step);
      store.CompleteReview(id, verdict);
      store.AddStep(id, VerdictStep(verdict));
      var shown := Shown(id);
      return Ok(P.Ruling(verdict, shown));
    }

    method CreateReview(actor: P.Principal, change: P.Change, agent: seq<P.AgentFinding>)
      returns (created: Result<(nat, P.Ruling), P.Error>)
      modifies store, dispositions
      ensures var outcome := P.CreateReview(env, old(State()), actor, change, agent);
        created == P.Reply(outcome) && State() == P.Committed(old(State()), outcome)
    {
      hide ComputeVerdict, Dedup.Merged, P.Answer, ScopedAll, Filter, P.Shown, StepAdded, Complete, FindingsAdded,
           P.FindingsStepOf, P.Examine, P.Settled, P.PlanStepOf;
      var examined := Examine(actor, change, true);
      if examined.Err? {
        return Err(examined.error);
      }
      var x := examined.value;
      var config := x.config;
      var capped := P.Take(agent, config.policy.maxAgentFindings);
      var dropped := |agent| - |capped|;
      var scoped := ScopeToDiff(capped, x.added);
      scoped := Identify(Filter(P.Enabled(config), scoped));
      var final := Dedup.Merge(x.findings, scoped);
      final := Remember(x.projectId, final);
      var verdict := ComputeVerdict(final, config.policy);
      var agentFinal := Filter(IsAgent, final);
      ghost var j := P.Judge(env, dispositions.rows, x.projectId, config, x.findings, x.added, agent, false);
      var step := P.FindingsStepOf(|agent|, agentFinal, scoped, dropped, false);
      assert j == P.Judgement(agentFinal, step, verdict);
      var id := store.Create(x.projectId, actor.userId, x.added, |x.diffs|);
      store.AddFindings(id, x.findings);
      store.AddFindings(id, agentFinal);
      store.AddStep(id, P.PlanStepOf(x));
      store.AddStep(id, step);
      store.CompleteReview(id, verdict);
      store.AddStep(id, VerdictStep(verdict));
      var shown := Shown(id);
      return Ok((id, P.Ruling(verdict, shown)));
    }

    /** May stop half way through the answers: what it then leaves of them is for the transaction to undo. */
    method Respond(actor: P.Principal, id: nat, responses: seq<P.Response>) returns (ruled: Result<Verdict, P.Error>)
      modifies store, dispositions
      ensures var outcome := P.Respond(env, old(State()), actor, id, responses);
        ruled == P.Reply(outcome) && (outcome.Done? ==> State() == outcome.tables)
      ensures ruled.Err? ==> store.Rows() == old(store.Rows())
    {
      hide ComputeVerdict, P.Answer, Filter, P.Shown, StepAdded, Complete, FindingsOf, P.Recorded;
      var owner := OwnReview(actor, id);
      if owner.Err? {
        return Err(owner.error);
      }
      var projectId := owner.value.projectId;
      var stored := store.ReadFindings(id);
      var shown := Shown(id);
      ghost var before := dispositions.rows;
      for k := 0 to |responses|
        invariant store.Rows() == old(store.Rows())
        invariant P.AllRecorded(env, actor, projectId, shown, before, responses[..k]) == Ok(dispositions.rows)
      {
        RecordedNext(env, actor, projectId, shown, before, responses, k);
        var refused := Record(actor, projectId, shown, responses[k]);
        if refused.Some? {
          return Err(refused.value);
        }
      }
      assert responses[..|responses|] == responses;
      var final := Remember(projectId, stored);
      var verdict := ComputeVerdict(final, env.config(projectId).policy);
      store.AddStep(id, ResponsesStep(Map(P.Said, responses), actor.email, Count(P.IsMuted, final)));
      store.CompleteReview(id, verdict);
      return Ok(verdict);
    }

    /** One answer: refused, or recorded. */
    method Record(actor: P.Principal, projectId: nat, shown: seq<Finding>, response: P.Response)
      returns (refused: Option<P.Error>)
      modifies dispositions
      ensures match P.Recorded(env, actor, projectId, shown, old(dispositions.rows), response) {
          case Err(e) => refused == Some(e)
          case Ok(rows) => refused == None && dispositions.rows == rows
        }
    {
      if Muting(response.disposition) && Strip(response.note) == "" {
        return Some(P.NeedsReason(response.disposition));
      }
      if response.disposition.Accepted? && !actor.isLead {
        return Some(P.LeadOnly);
      }
      var fp := Resolve(response.finding, shown);
      if fp.Err? {
        return Some(fp.error);
      }
      dispositions.Set(projectId, fp.value, response.disposition, Strip(response.note), actor.userId, env.today);
      return None;
    }

    /** `respond` inside its transaction: refused as a whole, or committed as a whole. */
    method RespondInTransaction(actor: P.Principal, id: nat, responses: seq<P.Response>)
      returns (ruled: Result<Verdict, P.Error>)
      modifies store, dispositions
      ensures var outcome := P.Respond(env, old(State()), actor, id, responses);
        ruled == P.Reply(outcome) && State() == P.Committed(old(State()), outcome)
    {
      hide P.Respond;
      var reviews, findings, steps, rows := store.reviews, store.findings, store.steps, dispositions.rows;
      ruled := Respond(actor, id, responses);
      if ruled.Err? {
        store.reviews, store.findings, store.steps, dispositions.rows := reviews, findings, steps, rows;
      }
    }
  }

  /** What a developer points at: the number of a finding shown, or its fingerprint. */
  method Resolve(finding: P.Reference, shown: seq<Finding>) returns (fp: Result<string, P.Error>)
    ensures fp == P.Resolve(finding, shown)
  {
    match finding
    case Number(n) =>
      if !(1 <= n <= |shown|) {
        return Err(P.NoSuchNumber(n));
      }
      return Ok(shown[n - 1].fingerprint);
    case Id(id) =>
      if id !in P.Fingerprints(shown) {
        return Err(P.NotInReview);
      }
      return Ok(id);
  }

  lemma NothingToSettle(rows: seq<DispositionRow>, projectId: nat)
    ensures P.Settled(rows, projectId, {}, {}) == rows
  {
  }

  lemma RecordedNext(env: P.Env, actor: P.Principal, projectId: nat, shown: seq<Finding>, rows: seq<DispositionRow>,
                     responses: seq<P.Response>, k: nat)
    requires k < |responses|
    requires P.AllRecorded(env, actor, projectId, shown, rows, responses[..k]).Ok?
    ensures var before := P.AllRecorded(env, actor, projectId, shown, rows, responses[..k]).value;
      var next := P.Recorded(env, actor, projectId, shown, before, responses[k]);
      && P.AllRecorded(env, actor, projectId, shown, rows, responses[..k + 1]) == next
      && (next.Err? ==> P.AllRecorded(env, actor, projectId, shown, rows, responses) == next)
  {
    assert responses[..k + 1][..k] == responses[..k];
    RefusalSticks(env, actor, projectId, shown, rows, responses, k + 1);
  }

  /** A refused answer refuses the whole list. */
  lemma {:induction false} RefusalSticks(env: P.Env, actor: P.Principal, projectId: nat, shown: seq<Finding>,
                                         rows: seq<DispositionRow>, responses: seq<P.Response>, k: nat)
    requires k <= |responses|
    ensures P.AllRecorded(env, actor, projectId, shown, rows, responses[..k]).Err? ==>
      P.AllRecorded(env, actor, projectId, shown, rows, responses)
      == P.AllRecorded(env, actor, projectId, shown, rows, responses[..k])
    decreases |responses|
  {
    if k == |responses| {
      assert responses[..k] == responses;
    } else {
      var front := responses[..|responses| - 1];
      RefusalSticks(env, actor, projectId, shown, rows, front, k);
      assert front[..k] == responses[..k];
    }
  }
}
