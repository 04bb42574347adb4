// What the trail says of a submission adds up, and what a developer answers is heard.
module ReviewAccounts {
  import opened Strings
  import opened Sorting
  import opened PatchApply
  import opened Findings
  import opened ReviewTables
  import opened ReviewProtocol
  import opened ReviewVersions
  import opened ReviewVerdicts
  import Dedup
  import Suppression
  import UnifiedDiff

  // --- the trail ---

  lemma {:induction false} ActiveOrMuted(findings: seq<Finding>)
    ensures Count(IsActive, findings) + Count(IsMuted, findings) == |findings|
  {
    if findings != [] {
      ActiveOrMuted(findings[1..]);
    }
  }

  lemma {:induction false} InOrOut<T>(p: T -> bool, q: T -> bool, s: seq<T>)
    requires forall x :: x in s ==> p(x) != q(x)
    ensures Count(p, s) + Count(q, s) == |s|
  {
    if s != [] {
      assert p(s[0]) != q(s[0]);
      InOrOut(p, q, s[1..]);
    }
  }

  /** Muting one by one never leaves fewer muted. */
  lemma {:induction false} MutedGrows(a: seq<Finding>, b: seq<Finding>)
    requires |a| == |b| && forall k :: 0 <= k < |a| && IsMuted(a[k]) ==> IsMuted(b[k])
    ensures Count(IsMuted, a) <= Count(IsMuted, b)
  {
    if a != [] {
      MutedGrows(a[1..], b[1..]);
    }
  }

  lemma MutedStays(det: seq<Finding>, scoped: seq<Finding>)
    ensures Count(IsMuted, scoped) <= Count(IsMuted, Dedup.Decided(scoped, det, Dedup.ActiveKeys(det)))
  {
    hide Dedup.Decided;
    forall k | 0 <= k < |scoped| && IsMuted(scoped[k])
      ensures IsMuted(Dedup.Decided(scoped, det, Dedup.ActiveKeys(det))[k])
    {
      Dedup.DecisionIsRight(det, scoped, k);
    }
    MutedGrows(scoped, Dedup.Decided(scoped, det, Dedup.ActiveKeys(det)));
  }

  /** The agent's half of the answered merge: as many findings as were scoped, and no fewer of them muted. */
  lemma AgentHalfCounts(active: Answers, det: seq<Finding>, scoped: seq<Finding>)
    requires AllDeterministic(det)
    requires forall k :: 0 <= k < |scoped| ==> IsAgent(scoped[k])
    ensures var agentFinal := Filter(IsAgent, Applied(Dedup.Merged(det, scoped), active));
      |agentFinal| == |scoped| && Count(IsMuted, scoped) <= Count(IsMuted, agentFinal)
  {
    hide Dedup.Decided, Dedup.Merged, ApplyTo, Filter;
    var merged := Dedup.Merged(det, scoped);
    var decided := Dedup.Decided(scoped, det, Dedup.ActiveKeys(det));
    var half := Filter(IsAgent, merged);
    AppliedIsMap(merged, active);
    Dedup.MergedHalves(det, scoped);
    SameMembers(half, decided);
    CountPermutation(IsMuted, half, decided);
    MutedStays(det, scoped);
    ApplyKeepsSource(active);
    FilterMaps(IsAgent, Applying(active), merged);
    AppliedMutes(half, active);
    AppliedIsMap(half, active);
  }

  lemma AppliedMutes(findings: seq<Finding>, active: Answers)
    ensures Count(IsMuted, findings) <= Count(IsMuted, Applied(findings, active))
  {
    MutedGrows(findings, Applied(findings, active));
  }

  function Disabled(config: Config): Finding -> bool {
    (f: Finding) => f.ruleId in config.disabled
  }

  function Scoping(added: Dict<set<nat>>): Finding -> Finding {
    (f: Finding) => Suppression.Scoped(f, added)
  }

  function Outside(added: Dict<set<nat>>): Finding -> bool {
    (f: Finding) => !Suppression.InScope(f, added)
  }

  lemma {:induction false} SameCount(p: Finding -> bool, q: Finding -> bool, a: seq<Finding>, b: seq<Finding>)
    requires |a| == |b| && forall k :: 0 <= k < |a| ==> p(a[k]) == q(b[k])
    ensures Count(p, a) == Count(q, b)
  {
    if a != [] {
      SameCount(p, q, a[1..], b[1..]);
    }
  }

  /** What is scoped of a submission: the findings of enabled rules, muted where they lie outside the change. */
  lemma ScopedCounts(env: Env, config: Config, added: Dict<set<nat>>, findings: seq<Finding>)
    requires forall k :: 0 <= k < |findings| ==> IsActive(findings[k])
    ensures var enabled := Filter(Enabled(config), findings);
      var scoped := ScopedAgent(env, config, added, findings);
      |scoped| == |enabled| && Count(IsMuted, scoped) == Count(Outside(added), enabled)
  {
    hide Suppression.InScope, Filter;
    var enabled := Filter(Enabled(config), findings);
    assert Suppression.ScopedAll(findings, added) == Map(Scoping(added), findings);
    FilterMaps(Enabled(config), Scoping(added), findings);
    FilterMembers(Enabled(config), findings);
    var scoped := ScopedAgent(env, config, added, findings);
    assert scoped == Map(Identifying(env), Map(Scoping(added), enabled));
    forall k | 0 <= k < |enabled|
      ensures IsMuted(scoped[k]) == Outside(added)(enabled[k])
    {
      assert enabled[k] in findings;
    }
    SameCount(IsMuted, Outside(added), scoped, enabled);
  }

  /** Nothing of a submission goes missing: what was sent is what fell to the cap, what was of a disabled rule, what lay
      outside the change, what was a duplicate or already answered, and what was accepted. */
  lemma SubmissionAddsUp(env: Env, rows: seq<DispositionRow>, projectId: nat, config: Config, det: seq<Finding>,
                         added: Dict<set<nat>>, agent: seq<AgentFinding>, resubmit: bool)
    requires AllDeterministic(det)
    ensures var step := Judge(env, rows, projectId, config, det, added, agent, resubmit).step;
      var taken: seq<Finding> := Take(agent, config.policy.maxAgentFindings);
      && step.submitted == |agent|
      && step.submitted
         == step.droppedOverCap + Count(Disabled(config), taken) + step.outOfScope + step.duplicates + step.accepted
      && step.droppedOverCap == (if |agent| > config.policy.maxAgentFindings then |agent| - config.policy.maxAgentFindings else 0)
      && step.outOfScope == Count(Outside(added), Filter(Enabled(config), taken))
      && step.duplicates >= 0
  {
    hide Dedup.Merged, ComputeVerdict, Filter, Active, ScopedAgent, AllDeterministic;
    var taken: seq<Finding> := Take(agent, config.policy.maxAgentFindings);
    var scoped := ScopedAgent(env, config, added, taken);
    var merged := Dedup.Merged(det, scoped);
    AgentScopedIsAgent(env, config, added, Take(agent, config.policy.maxAgentFindings));
    AgentHalfCounts(Active(env.users, rows, projectId, Fingerprints(merged)), det, scoped);
    ActiveOrMuted(Filter(IsAgent, Final(env, rows, projectId, det, scoped)));
    ScopedCounts(env, config, added, taken);
    InOrOut(Disabled(config), Enabled(config), taken);
  }

  /** What the trail says of the deterministic half adds up too: every finding of the tools is reported, muted or dropped
      over the cap, and every standing claim is confirmed or regressed. */
  lemma PlanAddsUp(env: Env, actor: Principal, change: Change, rows: seq<DispositionRow>)
    requires Examine(env, actor, change, rows).Ok?
    ensures var x := Examine(env, actor, change, rows).value;
      var step := PlanStepOf(x);
      && step.deterministic + step.suppressed + step.droppedOverCap == |Found(env, x.config, x.projectId, change, rows)|
      && step.deterministic + step.suppressed <= env.maxFindings
      && step.fixedConfirmed + step.regressed == |Claimed(rows, x.projectId)|
  {
    hide Found, UnifiedDiff.Parse, AddedLines, Sort, Claimed, Fingerprints, CapOrder, Filter;
    var x := Examine(env, actor, change, rows).value;
    ExaminedIsOf(env, actor, change, rows);
    var found := Found(env, x.config, x.projectId, change, rows);
    ActiveOrMuted(x.findings);
    SortPermutesLength(CapOrder, Map(Regressing(x.regressed), found));
    var claimed := Claimed(rows, x.projectId);
    assert claimed == (claimed - Fingerprints(found)) + claimed * Fingerprints(found);
    assert x.confirmed == claimed - Fingerprints(found);
  }
}
