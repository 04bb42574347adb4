// What each call writes into the trail of its review.
module ReviewTrail {
  import opened Strings
  import opened Sorting
  import opened PatchApply
  import opened Findings
  import opened ReviewTables
  import opened ReviewProtocol
  import opened ReviewFacts
  import opened ReviewVersions
  import opened ReviewVerdicts
  import opened ReviewAccounts
  import opened ReviewRuns
  import Dedup
  import Suppression
  import UnifiedDiff

  function PayloadOf(s: StepRow): Payload {
    s.payload
  }

  /** What the steps of a review say, in order. */
  function Trail(r: Reviews, id: nat): seq<Payload> {
    Map(PayloadOf, StepsOf(r, id))
  }

  /** A step is added behind those of its review and to no other's. */
  lemma TrailNext(r: Reviews, id: nat, payload: Payload)
    ensures Trail(StepAdded(r, id, payload), id) == Trail(r, id) + [payload]
    ensures forall other :: other != id ==> Trail(StepAdded(r, id, payload), other) == Trail(r, other)
  {
    hide StepsOf, StepAdded, MaxNumber;
    forall other
      ensures Trail(StepAdded(r, id, payload), other) == Trail(r, other) + (if other == id then [payload] else [])
    {
      StepsOfAdded(r, id, other, payload);
    }
  }

  lemma SameSteps(a: Reviews, b: Reviews)
    requires a.steps == b.steps
    ensures forall id :: Trail(a, id) == Trail(b, id)
  {
  }

  /** The numbers of a submission: what was sent, what of it is stored active, what lay outside the change, what was muted
      for another reason, what fell to the cap, and whether it was not the first. */
  predicate Tells(step: Payload, config: Config, added: Dict<set<nat>>, agent: seq<Finding>, stored: seq<Finding>, again: bool)
  {
    var taken := if |agent| > config.policy.maxAgentFindings then agent[..config.policy.maxAgentFindings] else agent;
    var active, outside := Count(IsActive, stored), Count(Outside(added), Filter(Enabled(config), taken));
    step == FindingsStep(|agent|, active, outside, |stored| - active - outside, |agent| - |taken|, again)
  }

  lemma StepTells(env: Env, rows: seq<DispositionRow>, projectId: nat, config: Config, det: seq<Finding>,
                  added: Dict<set<nat>>, agent: seq<AgentFinding>, resubmit: bool)
    requires AllDeterministic(det)
    ensures var j := Judge(env, rows, projectId, config, det, added, agent, resubmit);
      Tells(j.step, config, added, agent, Forgotten(j.agentFinal), resubmit)
  {
    var j := Judge(env, rows, projectId, config, det, added, agent, resubmit);
    StepIs(env, rows, projectId, config, det, added, agent, resubmit);
    hide Judge, Filter, AllDeterministic, Outside, Enabled;
    SubmissionAddsUp(env, rows, projectId, config, det, added, agent, resubmit);
    FilterMaps(IsActive, Forget, j.agentFinal);
  }

  lemma StepIs(env: Env, rows: seq<DispositionRow>, projectId: nat, config: Config, det: seq<Finding>,
               added: Dict<set<nat>>, agent: seq<AgentFinding>, resubmit: bool)
    ensures var j := Judge(env, rows, projectId, config, det, added, agent, resubmit);
      && j.step == FindingsStep(j.step.submitted, Count(IsActive, j.agentFinal), j.step.outOfScope, j.step.duplicates,
                                j.step.droppedOverCap, resubmit)
      && j.step.outOfScope + j.step.duplicates + j.step.accepted == |j.agentFinal|
  {
    hide Final, ScopedAgent, Filter, ComputeVerdict;
    ActiveOrMuted(Judge(env, rows, projectId, config, det, added, agent, resubmit).agentFinal);
  }

  /** The step of a plan: how many files, under which rules, how many findings the plan shows and how many it says are
      muted, how many claims were confirmed and how many contradicted, what fell to the cap, and for which platform. */
  predicate TellsPlan(step: Payload, x: Examined, plan: Plan, change: Change) {
    step == PlanStep(|UnifiedDiff.Parse(change.diff)|, x.config.ruleset, |plan.findings|, |plan.suppressed|, |x.confirmed|,
                     |x.regressed|, x.dropped, if change.platform == "" then "not detected" else change.platform)
  }

  /** Planning in the first version leaves a review whose trail is the plan. */
  lemma PlanTrail(env: Env, t: Tables, actor: Principal, change: Change)
    requires Grounded(t.reviews) && Examine(env, actor, change, t.answers).Ok?
    ensures var x, p := Examine(env, actor, change, t.answers).value, PlanV1(env, t, actor, change);
      && p.Done? && p.value.reviewId == Some(|t.reviews.reviews| + 1)
      && (exists step :: TellsPlan(step, x, p.value, change) && Trail(p.tables.reviews, |t.reviews.reviews| + 1) == [step])
      && (forall id :: id != |t.reviews.reviews| + 1 ==> Trail(p.tables.reviews, id) == Trail(t.reviews, id))
  {
    var x := Examine(env, actor, change, t.answers).value;
    var id := |t.reviews.reviews| + 1;
    var r := FindingsAdded(Opened(t.reviews, actor, x), id, x.findings);
    var step := PlanStepOf(x);
    assert TellsPlan(step, x, AsPlan(x, Some(id)), change) by {
      hide Found, UnifiedDiff.Parse, AddedLines, Cap, Claimed, Fingerprints, Filter;
    }
    hide Examine, StepAdded, PlanStepOf, AsPlan, Trail, Filter, TellsPlan;
    TrailNext(r, id, step);
    FreshHasNothing(t.reviews, id);
    SameSteps(r, t.reviews);
    assert Trail(t.reviews, id) == [] by {
      NoTrail(t.reviews, id);
    }
  }

  lemma NoTrail(r: Reviews, id: nat)
    requires StepsOf(r, id) == []
    ensures Trail(r, id) == []
  {
  }

  /** A submission adds what became of the agent's findings, and the verdict. */
  lemma SubmitTrail(env: Env, t: Tables, actor: Principal, id: nat, agent: seq<AgentFinding>)
    requires Submit(env, t, actor, id, agent).Done?
    ensures 1 <= id <= |t.reviews.reviews|
    ensures var s, row := Submit(env, t, actor, id, agent), t.reviews.reviews[id - 1];
      && (exists step ::
            && Tells(step, env.config(row.projectId), row.added, agent, Filter(IsAgent, FindingsOf(s.tables.reviews, id)),
                     row.status == Completed)
            && Trail(s.tables.reviews, id) == Trail(t.reviews, id) + [step, VerdictStep(s.value.verdict)])
      && (forall other :: other != id ==> Trail(s.tables.reviews, other) == Trail(t.reviews, other))
  {
    var row := t.reviews.reviews[id - 1];
    var config, det := env.config(row.projectId), Filter(Dedup.IsDeterministic, FindingsOf(t.reviews, id));
    var j := Judge(env, t.answers, row.projectId, config, det, row.added, agent, row.status == Completed);
    var after := Submit(env, t, actor, id, agent).tables.reviews;
    var replaced := AgentReplaced(t.reviews, id, j.agentFinal);
    assert after == Concluded(replaced, id, j.step, j.verdict) && Submit(env, t, actor, id, agent).value.verdict == j.verdict;
    AgentFinalIsAgent(env, t, id, row, det, agent, row.status == Completed);
    hide Submit, Judge, Filter, FindingsOf, Tells, AllDeterministic, Trail;
    StoredAreDeterministic(FindingsOf(t.reviews, id));
    StepTells(env, t.answers, row.projectId, config, det, row.added, agent, row.status == Completed);
    StoredHalf(t.reviews, id, j.agentFinal);
    SameRowsSameFindings(after, replaced, id);
    ConcludedTrail(replaced, id, j.step, j.verdict);
    SameSteps(replaced, t.reviews);
  }

  /** `create_review` leaves a review whose trail is that of the plan, the agent's findings and the verdict. */
  lemma CreateTrail(env: Env, t: Tables, actor: Principal, change: Change, agent: seq<AgentFinding>)
    requires Grounded(t.reviews) && CreateReview(env, t, actor, change, agent).Done?
    ensures Examine(env, actor, change, t.answers).Ok? && PlanV1(env, t, actor, change).Done?
    ensures var x, id := Examine(env, actor, change, t.answers).value, |t.reviews.reviews| + 1;
      var p, Done(after, (_, ruling)) := PlanV1(env, t, actor, change).tables, CreateReview(env, t, actor, change, agent);
      && (exists step ::
            && Tells(step, x.config, x.added, agent, Filter(IsAgent, FindingsOf(after.reviews, id)), false)
            && Trail(after.reviews, id) == Trail(p.reviews, id) + [step, VerdictStep(ruling.verdict)])
      && (forall other :: other != id ==> Trail(after.reviews, other) == Trail(t.reviews, other))
  {
    hide Trail, Submit, Examine, Tells, FindingsOf, Filter, Grounded, Judge, Settled, FindingsAdded, StepAdded, Concluded, Shown;
    VersionsAgree(env, t, actor, change, agent);
    ExaminedIsOf(env, actor, change, t.answers);
    ExaminedFindings(env, actor, change, t.answers);
    var x, id := Examine(env, actor, change, t.answers).value, |t.reviews.reviews| + 1;
    PlannedHolds(t.reviews, actor, x);
    var Done(planned, plan) := PlanV1(env, t, actor, change);
    assert planned.reviews == PlannedReviews(t.reviews, actor, x) && plan.reviewId == Some(id);
    hide PlanV1, CreateReview;
    SubmitTrail(env, planned, actor, id, agent);
    PlanTrail(env, t, actor, change);
  }

  lemma ConcludedTrail(r: Reviews, id: nat, step: Payload, verdict: Verdict)
    ensures var c := Concluded(r, id, step, verdict);
      && Trail(c, id) == Trail(r, id) + [step, VerdictStep(verdict)]
      && (forall other :: other != id ==> Trail(c, other) == Trail(r, other))
  {
    hide StepAdded, Trail;
    TrailNext(r, id, step);
    var added := StepAdded(r, id, step);
    SameSteps(Complete(added, id, verdict), added);
    TrailNext(Complete(added, id, verdict), id, VerdictStep(verdict));
  }

  lemma AgentFinalIsAgent(env: Env, t: Tables, id: nat, row: ReviewRow, det: seq<Finding>, agent: seq<AgentFinding>, again: bool)
    ensures var j := Judge(env, t.answers, row.projectId, env.config(row.projectId), det, row.added, agent, again);
      forall k :: 0 <= k < |j.agentFinal| ==> IsAgent(j.agentFinal[k])
  {
    hide Final, ScopedAgent, Filter;
    FiltersAgent(Final(env, t.answers, row.projectId, det,
      ScopedAgent(env, env.config(row.projectId), row.added, Take(agent, env.config(row.projectId).policy.maxAgentFindings))));
  }

  /** Of what replacing leaves, the agent's half is what was put there. */
  lemma StoredHalf(r: Reviews, id: nat, batch: seq<Finding>)
    requires forall k :: 0 <= k < |batch| ==> IsAgent(batch[k])
    ensures Filter(IsAgent, FindingsOf(AgentReplaced(r, id, batch), id)) == Forgotten(batch)
  {
    FindingsOfReplaced(r, id, id, batch);
    var det := Filter(Dedup.IsDeterministic, FindingsOf(r, id));
    FilterMembers(Dedup.IsDeterministic, FindingsOf(r, id));
    hide Filter, FindingsOf, AgentReplaced;
    FilterConcat(IsAgent, det, Forgotten(batch));
    FilterAll(IsAgent, det);
    FilterAll(IsAgent, Forgotten(batch));
    assert [] + Forgotten(batch) == Forgotten(batch);
  }

  /** A respond adds the answers it carried, by whom, and how many findings they leave muted. */
  lemma RespondTrail(env: Env, t: Tables, actor: Principal, id: nat, responses: seq<Response>)
    requires Respond(env, t, actor, id, responses).Done?
    ensures 1 <= id <= |t.reviews.reviews|
    ensures var after := Respond(env, t, actor, id, responses).tables;
      var answered := Answer(env, after.answers, t.reviews.reviews[id - 1].projectId, FindingsOf(t.reviews, id));
      && (exists said: seq<(Disposition, string)> ::
            && |said| == |responses|
            && (forall k :: 0 <= k < |said| ==> said[k] == (responses[k].disposition, Strip(responses[k].note)))
            && Trail(after.reviews, id) == Trail(t.reviews, id) + [ResponsesStep(said, actor.email, Count(IsMuted, answered))])
      && (forall other :: other != id ==> Trail(after.reviews, other) == Trail(t.reviews, other))
  {
    hide StepAdded, Trail, FindingsOf, AllRecorded, Answer, ComputeVerdict, Filter;
    var Done(after, verdict) := Respond(env, t, actor, id, responses);
    var answered := Answer(env, after.answers, t.reviews.reviews[id - 1].projectId, FindingsOf(t.reviews, id));
    var step := ResponsesStep(Map(Said, responses), actor.email, Count(IsMuted, answered));
    TrailNext(t.reviews, id, step);
    SameSteps(after.reviews, StepAdded(t.reviews, id, step));
  }
}
