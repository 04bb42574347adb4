// The two wire versions mean the same: planning with a row and submitting to it, or creating the review at the end.
module ReviewVersions {
  import opened Strings
  import opened Sorting
  import opened UnifiedDiff
  import opened PatchApply
  import opened Findings
  import opened Suppression
  import opened ReviewTables
  import opened ReviewProtocol
  import opened ReviewFacts
  import Dedup

  predicate AllDeterministic(findings: seq<Finding>) {
    forall k :: 0 <= k < |findings| ==> Dedup.IsDeterministic(findings[k])
  }

  /** As the tools leave a finding. */
  predicate FromTools(f: Finding) {
    Dedup.IsDeterministic(f) && !f.regressed
  }

  predicate AllFromTools(findings: seq<Finding>) {
    forall k :: 0 <= k < |findings| ==> FromTools(findings[k])
  }

  lemma MappedFromTools(f: Finding -> Finding, findings: seq<Finding>)
    requires AllFromTools(findings)
    requires forall x :: f(x).source == x.source && f(x).regressed == x.regressed
    ensures AllFromTools(Map(f, findings))
  {
  }

  lemma CapMembers(findings: seq<Finding>, limit: nat)
    ensures forall f :: f in Cap(findings, limit).0 ==> f in findings
  {
    hide Sort;
    SortPermutes(CapOrder, findings);
    SameMembers(Sort(CapOrder, findings), findings);
    SortPermutesLength(CapOrder, findings);
  }

  lemma ActionableFromTools(env: Env, change: Change, findings: seq<Finding>)
    requires AllFromTools(findings)
    ensures AllFromTools(Actionable(env.patterns, change.files, findings))
  {
    hide Actionable;
    ActionableOnlySuppresses(env.patterns, change.files, findings);
    var out := Actionable(env.patterns, change.files, findings);
    forall k | 0 <= k < |out|
      ensures FromTools(out[k])
    {
      assert SuppressedOnly(findings[k], out[k]) && FromTools(findings[k]);
    }
  }

  /** Nothing the deterministic half finds is ever the agent's, and nothing in it says yet that it came back. */
  lemma FoundFromTools(env: Env, config: Config, projectId: nat, change: Change, rows: seq<DispositionRow>)
    ensures AllFromTools(Found(env, config, projectId, change, rows))
  {
    hide Actionable, Parse, AddedLines, Filter, Scoped, Active;
    var diffs := Parse(change.diff);
    var added := AddedLines(diffs);
    var tools: seq<Finding> := env.tools(config, change, diffs, added);
    assert AllFromTools(tools);
    var scoped := ScopedAll(tools, added);
    assert AllFromTools(scoped) by {
      ScopedKeeps(tools, added);
    }
    ActionableFromTools(env, change, scoped);
    var kept := Filter(Enabled(config), Actionable(env.patterns, change.files, scoped));
    FilterMembers(Enabled(config), Actionable(env.patterns, change.files, scoped));
    MappedFromTools(Identifying(env), kept);
  }

  lemma ScopedKeeps(findings: seq<Finding>, added: Dict<set<nat>>)
    ensures forall k :: 0 <= k < |findings| ==>
      ScopedAll(findings, added)[k].source == findings[k].source
      && ScopedAll(findings, added)[k].regressed == findings[k].regressed
  {
  }

  /** What an examination holds: the deterministic half, in which exactly the claims that came back say so. */
  lemma ExaminedFindings(env: Env, actor: Principal, change: Change, rows: seq<DispositionRow>)
    requires Examine(env, actor, change, rows).Ok?
    ensures var x := Examine(env, actor, change, rows).value;
      && AllDeterministic(x.findings)
      && forall k :: 0 <= k < |x.findings| ==> (x.findings[k].regressed <==> x.findings[k].fingerprint in x.regressed)
  {
    hide Found, Parse, AddedLines, Cap;
    var projectId := actor.projectId.value;
    var found := Found(env, env.config(projectId), projectId, change, rows);
    FoundFromTools(env, env.config(projectId), projectId, change, rows);
    var regressed := Claimed(rows, projectId) * Fingerprints(found);
    var flagged := Map(Regressing(regressed), found);
    var kept := Cap(flagged, env.maxFindings).0;
    CapMembers(flagged, env.maxFindings);
    forall k | 0 <= k < |kept|
      ensures Dedup.IsDeterministic(kept[k]) && (kept[k].regressed <==> kept[k].fingerprint in regressed)
    {
      assert kept[k] in flagged;
      var j :| 0 <= j < |flagged| && flagged[j] == kept[k];
      assert FromTools(found[j]);
    }
  }

  // --- the review between the two calls of /v1 ---

  /** The rows of a review just planned. */
  function PlannedReviews(r: Reviews, actor: Principal, x: Examined): Reviews {
    StepAdded(FindingsAdded(Opened(r, actor, x), |r.reviews| + 1, x.findings), |r.reviews| + 1, PlanStepOf(x))
  }

  lemma AllDeterministicStay(batch: seq<Finding>)
    requires AllDeterministic(batch)
    ensures Filter(Dedup.IsDeterministic, Forgotten(batch)) == Forgotten(batch)
  {
    FilterAll(Dedup.IsDeterministic, Forgotten(batch));
  }

  lemma DeterministicRowsStay(id: nat, batch: seq<Finding>)
    requires AllDeterministic(batch)
    ensures Filter(NotAgentOf(id), Map(ToRow(id), batch)) == Map(ToRow(id), batch)
  {
    FilterAll(NotAgentOf(id), Map(ToRow(id), batch));
  }

  lemma FirstFindings(r: Reviews, id: nat, batch: seq<Finding>)
    requires FindingsOf(r, id) == [] && Filter(NotAgentOf(id), r.findings) == r.findings && AllDeterministic(batch)
    ensures var added := FindingsAdded(r, id, batch);
      && Filter(Dedup.IsDeterministic, FindingsOf(added, id)) == Forgotten(batch)
      && Filter(NotAgentOf(id), added.findings) == added.findings
  {
    hide Filter, FindingsOf, AllDeterministic;
    FindingsOfAdded(r, id, id, batch);
    assert [] + Forgotten(batch) == Forgotten(batch);
    AllDeterministicStay(batch);
    FilterConcat(NotAgentOf(id), r.findings, Map(ToRow(id), batch));
    DeterministicRowsStay(id, batch);
  }

  lemma PlannedHolds(r: Reviews, actor: Principal, x: Examined)
    requires Grounded(r) && AllDeterministic(x.findings)
    ensures var id, p := |r.reviews| + 1, PlannedReviews(r, actor, x);
      && Exists(p, id)
      && RowOf(p, id) == ReviewRow(x.projectId, actor.userId, Planned, x.added, |x.diffs|, None, None)
      && Filter(Dedup.IsDeterministic, FindingsOf(p, id)) == Forgotten(x.findings)
      && Filter(NotAgentOf(id), p.findings) == p.findings
  {
    hide PlanStepOf, StepsOf, MaxNumber, Filter, AllDeterministic;
    var id := |r.reviews| + 1;
    var created := Opened(r, actor, x);
    FreshHasNothing(r, id);
    FirstFindings(created, id, x.findings);
    assert PlannedReviews(r, actor, x).findings == FindingsAdded(created, id, x.findings).findings;
  }

  /** Storing what the tables would forget anyway. */
  lemma SameStored(r: Reviews, id: nat, a: seq<Finding>, b: seq<Finding>)
    requires Forgotten(a) == Forgotten(b)
    ensures FindingsAdded(r, id, a) == FindingsAdded(r, id, b)
  {
    forall k | 0 <= k < |a|
      ensures ToRow(id)(a[k]) == ToRow(id)(b[k])
    {
      assert Forgotten(a)[k] == Forgotten(b)[k];
    }
  }

  lemma StepBeforeFindings(r: Reviews, id: nat, step: Payload, batch: seq<Finding>)
    ensures FindingsAdded(StepAdded(r, id, step), id, batch) == StepAdded(FindingsAdded(r, id, batch), id, step)
  {
  }

  /** `/v1` and `/v2` mean the same. From one state, planning and then submitting leaves the very tables one
      `create_review` leaves, with the same review id, the same verdict and the same findings shown; and each is
      refused exactly when the other is, for the same reason. */
  lemma VersionsAgree(env: Env, t: Tables, actor: Principal, change: Change, agent: seq<AgentFinding>)
    requires Grounded(t.reviews)
    ensures match PlanV1(env, t, actor, change) {
      case Failed(e) => CreateReview(env, t, actor, change, agent) == Failed(e)
      case Done(planned, plan) =>
        plan.reviewId.Some? &&
        match Submit(env, planned, actor, plan.reviewId.value, agent) {
          case Failed(e) => false
          case Done(after, ruling) =>
            CreateReview(env, t, actor, change, agent) == Done(after, (plan.reviewId.value, ruling))
        }
    }
  {
    hide Examine, Judge, Concluded, StepAdded, FindingsAdded, Settled, Filter, FindingsOf, Shown;
    match Examine(env, actor, change, t.answers)
    case Err(e) =>
    case Ok(x) =>
      ExaminedFindings(env, actor, change, t.answers);
      var id := |t.reviews.reviews| + 1;
      var p := PlannedReviews(t.reviews, actor, x);
      assert x.projectId == actor.projectId.value && x.config == env.config(x.projectId) by {
        ExaminedIsOf(env, actor, change, t.answers);
      }
      PlannedHolds(t.reviews, actor, x);
      assert OwnReview(p, actor, id) == Ok(RowOf(p, id));
      var rows := SettledTables(t, x).answers;
      JudgeForgets(env, rows, x.projectId, x.config, x.findings, x.added, agent, false);
      var a := Judge(env, rows, x.projectId, x.config, Forgotten(x.findings), x.added, agent, false);
      var b := Judge(env, rows, x.projectId, x.config, x.findings, x.added, agent, false);
      assert AgentReplaced(p, id, a.agentFinal) == FindingsAdded(p, id, a.agentFinal);
      SameStored(p, id, a.agentFinal, b.agentFinal);
      StepBeforeFindings(FindingsAdded(Opened(t.reviews, actor, x), id, x.findings), id, PlanStepOf(x), b.agentFinal);
  }

  lemma ExaminedIsOf(env: Env, actor: Principal, change: Change, rows: seq<DispositionRow>)
    requires Examine(env, actor, change, rows).Ok?
    ensures var x := Examine(env, actor, change, rows).value;
      && actor.projectId == Some(x.projectId) && x.config == env.config(x.projectId)
      && x.diffs == Parse(change.diff) && x.added == AddedLines(x.diffs)
  {
    hide Found, Parse, AddedLines, Cap, Claimed;
  }
}
