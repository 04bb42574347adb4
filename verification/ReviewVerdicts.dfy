// The verdict a call records is the verdict of what the tables hold when it returns.
module ReviewVerdicts {
  import opened Strings
  import opened Sorting
  import opened PatchApply
  import opened Findings
  import opened ReviewTables
  import opened ReviewProtocol
  import opened ReviewFacts
  import opened ReviewVersions
  import Dedup
  import Suppression

  // --- the merge, answered, against its two halves ---

  function Applying(active: Answers): Finding -> Finding {
    (f: Finding) => ApplyTo(f, active)
  }

  lemma AppliedIsMap(findings: seq<Finding>, active: Answers)
    ensures Applied(findings, active) == Map(Applying(active), findings)
  {
  }

  lemma AgentScopedIsAgent(env: Env, config: Config, added: Dict<set<nat>>, agent: seq<AgentFinding>)
    ensures forall k :: 0 <= k < |ScopedAgent(env, config, added, agent)| ==> IsAgent(ScopedAgent(env, config, added, agent)[k])
  {
    hide Filter, Suppression.InScope;
    var findings: seq<Finding> := agent;
    var scoped := Suppression.ScopedAll(findings, added);
    assert forall k :: 0 <= k < |scoped| ==> IsAgent(scoped[k]) by {
      assert forall k :: 0 <= k < |agent| ==> IsAgent(agent[k]);
    }
    FilterMembers(Enabled(config), scoped);
  }

  lemma MapTakeOut<T, U>(f: T -> U, s: seq<T>, k: nat)
    requires k < |s|
    ensures multiset(Map(f, s)) == multiset{f(s[k])} + multiset(Map(f, s[..k] + s[k + 1..]))
  {
    var m := Map(f, s);
    assert m == m[..k] + [m[k]] + m[k + 1..];
    assert Map(f, s[..k] + s[k + 1..]) == m[..k] + m[k + 1..];
  }

  lemma {:induction false} MapPermutation<T, U>(f: T -> U, a: seq<T>, b: seq<T>)
    requires multiset(a) == multiset(b)
    ensures multiset(Map(f, a)) == multiset(Map(f, b))
    decreases |a|
  {
    if a == [] {
      SameMembers(a, b);
    } else {
      var k := Partner(a, b);
      MapPermutation(f, a[1..], b[..k] + b[k + 1..]);
      MapTakeOut(f, b, k);
      MapCons(f, a[0], a[1..]);
      assert a == [a[0]] + a[1..];
    }
  }

  lemma SameFingerprintsWhenPermuted(a: seq<Finding>, b: seq<Finding>)
    requires multiset(a) == multiset(b)
    ensures Fingerprints(a) == Fingerprints(b)
  {
    SameMembers(a, b);
  }

  lemma AppliedKeepsFingerprints(findings: seq<Finding>, active: Answers)
    ensures Fingerprints(Applied(findings, active)) == Fingerprints(findings)
  {
    var out := Applied(findings, active);
    forall fp
      ensures fp in Fingerprints(out) <==> fp in Fingerprints(findings)
    {
      if fp in Fingerprints(findings) {
        var f :| f in findings && f.fingerprint == fp;
        var k :| 0 <= k < |findings| && findings[k] == f;
        assert out[k] in out && out[k].fingerprint == fp;
      }
      if fp in Fingerprints(out) {
        var f :| f in out && f.fingerprint == fp;
        var k :| 0 <= k < |out| && out[k] == f;
        assert findings[k] in findings && findings[k].fingerprint == fp;
      }
    }
  }

  lemma FingerprintsOfBoth(a: seq<Finding>, b: seq<Finding>)
    ensures Fingerprints(a + b) == Fingerprints(a) + Fingerprints(b)
  {
    assert forall f :: f in a + b <==> f in a || f in b;
  }

  /** The deterministic half as it was and the agent's half as the answered merge left it are, once answered, the
      answered merge again. */
  lemma HalvesMakeFinal(active: Answers, det: seq<Finding>, scoped: seq<Finding>)
    requires AllDeterministic(det)
    requires forall k :: 0 <= k < |scoped| ==> IsAgent(scoped[k])
    ensures var final := Applied(Dedup.Merged(det, scoped), active);
      && multiset(Applied(det + Filter(IsAgent, final), active)) == multiset(final)
      && Fingerprints(det + Filter(IsAgent, final)) == Fingerprints(final)
  {
    hide Dedup.Decided, Dedup.Merged, ApplyTo, Filter, Fingerprints;
    var merged := Dedup.Merged(det, scoped);
    var apply := Applying(active);
    var final := Applied(merged, active);
    AppliedIsMap(merged, active);
    Dedup.MergedHalves(det, scoped);
    ApplyKeepsSource(active);
    FilterMaps(IsAgent, apply, merged);
    FilterMaps(Dedup.IsDeterministic, apply, merged);
    var agentFinal, detFinal := Filter(IsAgent, final), Filter(Dedup.IsDeterministic, final);
    MapPermutation(apply, Filter(Dedup.IsDeterministic, merged), det);
    assert multiset(final) == multiset(agentFinal) + multiset(detFinal) by {
      SplitBySource(final);
    }
    AppliedIsMap(det + agentFinal, active);
    MapConcat(apply, det, agentFinal);
    AppliedIsMap(Filter(IsAgent, merged), active);
    ApplyTwice(Filter(IsAgent, merged), active);
    AppliedIsMap(agentFinal, active);
    AppliedIsMap(det, active);
    AppliedKeepsFingerprints(det, active);
    FingerprintsOfBoth(det, agentFinal);
    FingerprintsOfBoth(Applied(det, active), agentFinal);
    SameFingerprintsWhenPermuted(Applied(det, active) + agentFinal, final);
  }

  lemma ApplyKeepsSource(active: Answers)
    ensures forall f :: Applying(active)(f).source == f.source
    ensures forall f :: IsAgent(Applying(active)(f)) == IsAgent(f)
    ensures forall f :: Dedup.IsDeterministic(Applying(active)(f)) == Dedup.IsDeterministic(f)
  {
  }

  lemma {:induction false} SplitBySource(findings: seq<Finding>)
    ensures multiset(findings) == multiset(Filter(IsAgent, findings)) + multiset(Filter(Dedup.IsDeterministic, findings))
  {
    if findings != [] {
      SplitBySource(findings[1..]);
      assert findings == [findings[0]] + findings[1..];
    }
  }

  /** The judgement's verdict is the verdict of what it leaves in the tables, answered afresh. */
  lemma JudgementStands(env: Env, rows: seq<DispositionRow>, projectId: nat, config: Config, det: seq<Finding>,
                        added: Dict<set<nat>>, agent: seq<AgentFinding>, resubmit: bool, stored: seq<Finding>)
    requires AllDeterministic(det)
    requires var j := Judge(env, rows, projectId, config, det, added, agent, resubmit);
      Forgotten(stored) == Forgotten(det + j.agentFinal)
    ensures ComputeVerdict(Answer(env, rows, projectId, stored), config.policy)
         == Judge(env, rows, projectId, config, det, added, agent, resubmit).verdict
  {
    hide Dedup.Merged, ScopedAgent, ComputeVerdict, Filter, Active, Applied, Fingerprints, AllDeterministic, FindingsStepOf;
    var taken := Take(agent, config.policy.maxAgentFindings);
    var scoped := ScopedAgent(env, config, added, taken);
    var final := Final(env, rows, projectId, det, scoped);
    var all := det + Filter(IsAgent, final);
    AgentScopedIsAgent(env, config, added, taken);
    var active := Active(env.users, rows, projectId, Fingerprints(Dedup.Merged(det, scoped)));
    HalvesMakeFinal(active, det, scoped);
    AppliedKeepsFingerprints(Dedup.Merged(det, scoped), active);
    VerdictPermutation(Answer(env, rows, projectId, all), final, config.policy);
    AnswerForgets(env, rows, projectId, stored);
    AnswerForgets(env, rows, projectId, all);
    VerdictForgets(Answer(env, rows, projectId, stored), config.policy);
    VerdictForgets(Answer(env, rows, projectId, all), config.policy);
  }

  // --- after every call ---

  /** The verdict of what the tables hold about a review, with the answers that stand. */
  function VerdictNow(env: Env, t: Tables, id: nat): Verdict
    requires Exists(t.reviews, id)
  {
    var projectId := RowOf(t.reviews, id).projectId;
    ComputeVerdict(Answer(env, t.answers, projectId, FindingsOf(t.reviews, id)), env.config(projectId).policy)
  }

  /** The review is completed, and its row says what `verdict` says. */
  predicate Records(r: Reviews, id: nat, verdict: Verdict) {
    && Exists(r, id) && RowOf(r, id).status.Completed?
    && RowOf(r, id).blocking == Some(verdict.blocking) && RowOf(r, id).reason == Some(verdict.reason)
  }

  lemma ConcludedHolds(r: Reviews, id: nat, step: Payload, verdict: Verdict)
    requires Exists(r, id)
    ensures var c := Concluded(r, id, step, verdict);
      && Records(c, id, verdict) && RowOf(c, id).projectId == RowOf(r, id).projectId
      && c.findings == r.findings && |c.reviews| == |r.reviews|
      && (forall other :: Exists(r, other) && other != id ==> RowOf(c, other) == RowOf(r, other))
  {
    hide StepsOf, MaxNumber;
  }

  lemma StoredAreDeterministic(findings: seq<Finding>)
    ensures AllDeterministic(Filter(Dedup.IsDeterministic, findings))
  {
    FilterMembers(Dedup.IsDeterministic, findings);
  }

  /** `submit` stores only the agent's half of the merge, and yet the verdict it records is the verdict of all that is
      stored. */
  lemma SubmitVerdictStands(env: Env, t: Tables, actor: Principal, id: nat, agent: seq<AgentFinding>)
    requires Submit(env, t, actor, id, agent).Done?
    ensures var Done(after, ruling) := Submit(env, t, actor, id, agent);
      Exists(after.reviews, id) && VerdictNow(env, after, id) == ruling.verdict && Records(after.reviews, id, ruling.verdict)
  {
    hide Judge, ComputeVerdict, Filter, AddedOfReview, FindingsOf, Concluded, AllDeterministic;
    var row := RowOf(t.reviews, id);
    var det := Filter(Dedup.IsDeterministic, FindingsOf(t.reviews, id));
    var config := env.config(row.projectId);
    var added := AddedOfReview(t.reviews, id);
    var j := Judge(env, t.answers, row.projectId, config, det, added, agent, row.status == Completed);
    StoredAreDeterministic(FindingsOf(t.reviews, id));
    FindingsOfReplaced(t.reviews, id, id, j.agentFinal);
    var stored := det + Forgotten(j.agentFinal);
    assert Forgotten(stored) == Forgotten(det + j.agentFinal);
    JudgementStands(env, t.answers, row.projectId, config, det, added, agent, row.status == Completed, stored);
    var replaced := AgentReplaced(t.reviews, id, j.agentFinal);
    ConcludedHolds(replaced, id, j.step, j.verdict);
    SameRowsSameFindings(Concluded(replaced, id, j.step, j.verdict), replaced, id);
  }

  lemma SameRowsSameFindings(a: Reviews, b: Reviews, id: nat)
    requires a.findings == b.findings
    ensures FindingsOf(a, id) == FindingsOf(b, id)
  {
  }

  /** `create_review` stores what it judged. */
  lemma CreateVerdictStands(env: Env, t: Tables, actor: Principal, change: Change, agent: seq<AgentFinding>)
    requires Grounded(t.reviews) && CreateReview(env, t, actor, change, agent).Done?
    ensures var Done(after, (id, ruling)) := CreateReview(env, t, actor, change, agent);
      Exists(after.reviews, id) && VerdictNow(env, after, id) == ruling.verdict && Records(after.reviews, id, ruling.verdict)
  {
    hide Submit, CreateReview, PlanV1, VerdictNow, Records, Grounded;
    VersionsAgree(env, t, actor, change, agent);
    var Done(planned, plan) := PlanV1(env, t, actor, change);
    SubmitVerdictStands(env, planned, actor, plan.reviewId.value, agent);
  }

  /** `respond` rewrites no finding, and yet the verdict it records is that of the findings under the new answers. */
  lemma RespondVerdictStands(env: Env, t: Tables, actor: Principal, id: nat, responses: seq<Response>)
    requires Respond(env, t, actor, id, responses).Done?
    ensures var Done(after, verdict) := Respond(env, t, actor, id, responses);
      && after.reviews.findings == t.reviews.findings
      && Exists(after.reviews, id) && VerdictNow(env, after, id) == verdict && Records(after.reviews, id, verdict)
  {
    hide ComputeVerdict, FindingsOf, AllRecorded, Answer, StepsOf, MaxNumber, Filter;
    var Done(after, verdict) := Respond(env, t, actor, id, responses);
    SameRowsSameFindings(after.reviews, t.reviews, id);
  }
}
