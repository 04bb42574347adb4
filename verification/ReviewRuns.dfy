// What every run of the protocol keeps, whatever is called, by whom, in whatever order.
module ReviewRuns {
  import opened Strings
  import opened Sorting
  import opened PatchApply
  import opened Findings
  import opened ReviewTables
  import opened ReviewProtocol
  import opened ReviewFacts
  import opened ReviewVersions
  import opened ReviewVerdicts
  import opened DispositionRows
  import Dedup

  // --- settling ---

  /** What settling does to one row. */
  predicate SettledRow(a: DispositionRow, b: DispositionRow, projectId: nat, confirmed: set<string>, regressed: set<string>) {
    b == if a.projectId != projectId || a.revoked || !a.disposition.Fixed? then a
         else if a.fingerprint in confirmed then a.(disposition := ConfirmedFixed)
         else if a.fingerprint in regressed then a.(revoked := true)
         else a
  }

  /** Settling splits the standing claims in two, what the review did not find and what it found; confirms the first,
      revokes the second, touches no other answer and leaves no claim standing. */
  lemma SettlePartitions(env: Env, actor: Principal, change: Change, rows: seq<DispositionRow>)
    requires Unique(rows) && Examine(env, actor, change, rows).Ok?
    ensures var x := Examine(env, actor, change, rows).value;
      var after := Settled(rows, x.projectId, x.confirmed, x.regressed);
      && x.confirmed + x.regressed == Claimed(rows, x.projectId) && x.confirmed !! x.regressed
      && |after| == |rows|
      && (forall k :: 0 <= k < |rows| ==> SettledRow(rows[k], after[k], x.projectId, x.confirmed, x.regressed))
      && Claimed(after, x.projectId) == {}
      && Unique(after) && Evolves(rows, after)
  {
    hide Found, Cap, Unique, Claimed;
    var x := Examine(env, actor, change, rows).value;
    ExaminedClaims(env, actor, change, rows);
    SettledHolds(rows, x.projectId, x.confirmed, x.regressed);
  }

  lemma ExaminedClaims(env: Env, actor: Principal, change: Change, rows: seq<DispositionRow>)
    requires Examine(env, actor, change, rows).Ok?
    ensures var x := Examine(env, actor, change, rows).value;
      x.confirmed + x.regressed == Claimed(rows, x.projectId) && x.confirmed !! x.regressed
  {
    hide Found, Cap, Claimed, Fingerprints;
  }

  lemma SettledHolds(rows: seq<DispositionRow>, projectId: nat, confirmed: set<string>, regressed: set<string>)
    requires Unique(rows) && confirmed + regressed == Claimed(rows, projectId) && confirmed !! regressed
    ensures var after := Settled(rows, projectId, confirmed, regressed);
      && |after| == |rows|
      && (forall k :: 0 <= k < |rows| ==> SettledRow(rows[k], after[k], projectId, confirmed, regressed))
      && Claimed(after, projectId) == {}
      && Unique(after) && Evolves(rows, after)
  {
    var after := Settled(rows, projectId, confirmed, regressed);
    ConfirmedHolds(rows, projectId, confirmed);
    RevokedHolds(Confirmed(rows, projectId, confirmed), projectId, regressed);
    EvolvesTransitive(rows, Confirmed(rows, projectId, confirmed), after);
    hide Unique, Evolves;
    forall k | 0 <= k < |rows|
      ensures SettledRow(rows[k], after[k], projectId, confirmed, regressed)
      ensures !(after[k].projectId == projectId && after[k].disposition.Fixed? && !after[k].revoked)
    {
      if rows[k].projectId == projectId && !rows[k].revoked {
        if rows[k].fingerprint in Claimed(rows, projectId) {
          StandsAlone(rows, projectId, rows[k].fingerprint, k);
        } else {
          assert rows[k] in rows && !rows[k].disposition.Fixed?;
        }
      }
    }
  }

  // --- what a sound state is ---

  ghost predicate CountUp(steps: seq<StepRow>) {
    forall k :: 0 <= k < |steps| ==> steps[k].number == k + 1
  }

  /** The deterministic findings of a review stand before the agent's. */
  predicate DeterministicFirst(findings: seq<Finding>) {
    findings == Filter(Dedup.IsDeterministic, findings) + Filter(IsAgent, findings)
  }

  /** Foreign keys hold, steps count 1, 2, 3, … within each review, and the agent's findings come last. */
  ghost predicate SoundReviews(r: Reviews) {
    && Grounded(r)
    && (forall id: nat :: CountUp(StepsOf(r, id)))
    && (forall id: nat :: DeterministicFirst(FindingsOf(r, id)))
  }

  ghost predicate Sound(t: Tables) {
    SoundReviews(t.reviews) && Unique(t.answers)
  }

  // --- what may become of a state ---

  predicate RowAges(a: ReviewRow, b: ReviewRow) {
    && b == a.(status := b.status, blocking := b.blocking, reason := b.reason)
    && (a.status.Completed? ==> b.status.Completed?)
  }

  function Deterministic(r: Reviews, id: nat): seq<Finding> {
    Filter(Dedup.IsDeterministic, FindingsOf(r, id))
  }

  /** No review disappears or changes hands, its added lines and deterministic findings stay, and its steps are only
      added to. */
  ghost predicate ReviewsAge(a: Reviews, b: Reviews) {
    && |a.reviews| <= |b.reviews|
    && (forall k :: 0 <= k < |a.reviews| ==> RowAges(a.reviews[k], b.reviews[k]))
    && a.steps <= b.steps
    && (forall id: nat :: Exists(a, id) ==> Deterministic(b, id) == Deterministic(a, id))
  }

  ghost predicate Ages(a: Tables, b: Tables) {
    ReviewsAge(a.reviews, b.reviews) && Evolves(a.answers, b.answers)
  }

  lemma AgesTransitive(a: Tables, b: Tables, c: Tables)
    requires Ages(a, b) && Ages(b, c)
    ensures Ages(a, c)
  {
    hide Deterministic, RowEvolves;
    EvolvesTransitive(a.answers, b.answers, c.answers);
    forall k | 0 <= k < |a.reviews.reviews|
      ensures RowAges(a.reviews.reviews[k], c.reviews.reviews[k])
    {
      assert RowAges(a.reviews.reviews[k], b.reviews.reviews[k]) && RowAges(b.reviews.reviews[k], c.reviews.reviews[k]);
    }
    forall id: nat | Exists(a.reviews, id)
      ensures Deterministic(c.reviews, id) == Deterministic(a.reviews, id)
    {
      assert Exists(b.reviews, id);
    }
  }

  // --- each store operation keeps reviews sound ---

  lemma StepKeeps(r: Reviews, id: nat, payload: Payload)
    requires SoundReviews(r) && Exists(r, id)
    ensures SoundReviews(StepAdded(r, id, payload)) && ReviewsAge(r, StepAdded(r, id, payload))
  {
    hide DeterministicFirst, Filter, Deterministic, MaxNumber;
    var after := StepAdded(r, id, payload);
    forall other: nat
      ensures CountUp(StepsOf(after, other))
      ensures FindingsOf(after, other) == FindingsOf(r, other)
    {
      StepsOfAdded(r, id, other, payload);
      HighestIsLast(StepsOf(r, id));
      assert CountUp(StepsOf(r, other));
    }
    forall other: nat
      ensures DeterministicFirst(FindingsOf(after, other)) && Deterministic(after, other) == Deterministic(r, other)
    {
      SameRowsSameFindings(after, r, other);
      assert DeterministicFirst(FindingsOf(r, other));
      SameDeterministic(after, r, other);
    }
  }

  lemma SameDeterministic(a: Reviews, b: Reviews, id: nat)
    requires a.findings == b.findings
    ensures Deterministic(a, id) == Deterministic(b, id)
  {
  }

  lemma StepsOfAdded(r: Reviews, id: nat, other: nat, payload: Payload)
    ensures var s := StepRow(id, MaxNumber(StepsOf(r, id)) + 1, payload);
      StepsOf(StepAdded(r, id, payload), other) == if id == other then StepsOf(r, other) + [s] else StepsOf(r, other)
  {
    hide MaxNumber;
    var after := StepAdded(r, id, payload).steps;
    FilterNext(StepOf(other), after, |r.steps|);
    assert after[..|r.steps| + 1] == after && after[..|r.steps|] == r.steps;
  }

  lemma {:induction false} HighestIsLast(steps: seq<StepRow>)
    requires CountUp(steps)
    ensures MaxNumber(steps) == |steps|
  {
    if steps != [] {
      HighestIsLast(steps[..|steps| - 1]);
    }
  }

  lemma CompleteKeeps(r: Reviews, id: nat, verdict: Verdict)
    requires SoundReviews(r) && Exists(r, id)
    ensures SoundReviews(Complete(r, id, verdict)) && ReviewsAge(r, Complete(r, id, verdict))
  {
    hide DeterministicFirst, Filter, Deterministic, CountUp;
    var after := Complete(r, id, verdict);
    forall other: nat
      ensures CountUp(StepsOf(after, other)) && DeterministicFirst(FindingsOf(after, other))
      ensures Deterministic(after, other) == Deterministic(r, other)
    {
      assert StepsOf(after, other) == StepsOf(r, other) && CountUp(StepsOf(r, other));
      SameRowsSameFindings(after, r, other);
      assert DeterministicFirst(FindingsOf(r, other));
      SameDeterministic(after, r, other);
    }
  }

  lemma HalvesOfConcat(det: seq<Finding>, agent: seq<Finding>)
    requires AllDeterministic(det)
    requires forall k :: 0 <= k < |agent| ==> IsAgent(agent[k])
    ensures DeterministicFirst(det + agent) && Filter(Dedup.IsDeterministic, det + agent) == det
  {
    FilterConcat(Dedup.IsDeterministic, det, agent);
    FilterConcat(IsAgent, det, agent);
    FilterAll(Dedup.IsDeterministic, det);
    FilterAll(Dedup.IsDeterministic, agent);
    FilterAll(IsAgent, det);
    FilterAll(IsAgent, agent);
    assert det + [] == det && [] + agent == agent;
  }

  lemma ReplaceKeeps(r: Reviews, id: nat, batch: seq<Finding>)
    requires SoundReviews(r) && Exists(r, id)
    requires forall k :: 0 <= k < |batch| ==> IsAgent(batch[k])
    ensures SoundReviews(AgentReplaced(r, id, batch)) && ReviewsAge(r, AgentReplaced(r, id, batch))
  {
    hide Filter, CountUp, DeterministicFirst, FindingsOf;
    var after := AgentReplaced(r, id, batch);
    FilterMembers(NotAgentOf(id), r.findings);
    GroundedReplaced(r, id, batch);
    forall other: nat
      ensures CountUp(StepsOf(after, other)) && DeterministicFirst(FindingsOf(after, other))
      ensures Deterministic(after, other) == Deterministic(r, other)
    {
      FindingsOfReplaced(r, id, other, batch);
      StoredAreDeterministic(FindingsOf(r, id));
      HalvesOfConcat(Deterministic(r, id), Forgotten(batch));
      assert StepsOf(after, other) == StepsOf(r, other) && CountUp(StepsOf(r, other));
      assert DeterministicFirst(FindingsOf(r, other));
    }
  }

  lemma GroundedReplaced(r: Reviews, id: nat, batch: seq<Finding>)
    requires Grounded(r) && Exists(r, id)
    ensures Grounded(AgentReplaced(r, id, batch))
  {
    hide Filter;
    FilterMembers(NotAgentOf(id), r.findings);
    var after := AgentReplaced(r, id, batch);
    var kept := Filter(NotAgentOf(id), r.findings);
    forall k | 0 <= k < |after.findings|
      ensures Exists(after, after.findings[k].reviewId)
    {
      if k < |kept| {
        assert after.findings[k] == kept[k] && kept[k] in r.findings;
      }
    }
  }

  lemma OpenKeeps(r: Reviews, actor: Principal, x: Examined)
    requires SoundReviews(r) && AllDeterministic(x.findings)
    ensures var id, after := |r.reviews| + 1, FindingsAdded(Opened(r, actor, x), |r.reviews| + 1, x.findings);
      SoundReviews(after) && ReviewsAge(r, after) && Exists(after, id)
  {
    hide Filter, CountUp, DeterministicFirst, FindingsOf;
    var id := |r.reviews| + 1;
    var created := Opened(r, actor, x);
    var after := FindingsAdded(created, id, x.findings);
    FreshHasNothing(r, id);
    forall other: nat
      ensures CountUp(StepsOf(after, other)) && DeterministicFirst(FindingsOf(after, other))
      ensures Exists(r, other) ==> Deterministic(after, other) == Deterministic(r, other)
    {
      FindingsOfAdded(created, id, other, x.findings);
      SameRowsSameFindings(created, r, other);
      assert StepsOf(after, other) == StepsOf(r, other) && CountUp(StepsOf(r, other));
      assert DeterministicFirst(FindingsOf(r, other));
      HalvesOfConcat(Forgotten(x.findings), []);
      assert Forgotten(x.findings) + [] == Forgotten(x.findings) == [] + Forgotten(x.findings);
    }
  }

  // --- each call keeps the state sound ---

  lemma ReviewsAgeTransitive(a: Reviews, b: Reviews, c: Reviews)
    requires ReviewsAge(a, b) && ReviewsAge(b, c)
    ensures ReviewsAge(a, c)
  {
    hide Deterministic;
    forall k | 0 <= k < |a.reviews|
      ensures RowAges(a.reviews[k], c.reviews[k])
    {
      assert RowAges(a.reviews[k], b.reviews[k]) && RowAges(b.reviews[k], c.reviews[k]);
    }
    forall id: nat | Exists(a, id)
      ensures Deterministic(c, id) == Deterministic(a, id)
    {
      assert Exists(b, id);
    }
  }

  lemma ConcludedKeeps(r: Reviews, id: nat, step: Payload, verdict: Verdict)
    requires SoundReviews(r) && Exists(r, id)
    ensures SoundReviews(Concluded(r, id, step, verdict)) && ReviewsAge(r, Concluded(r, id, step, verdict))
  {
    var a := StepAdded(r, id, step);
    var b := Complete(a, id, verdict);
    StepKeeps(r, id, step);
    CompleteKeeps(a, id, verdict);
    StepKeeps(b, id, VerdictStep(verdict));
    hide SoundReviews, ReviewsAge, StepAdded;
    ReviewsAgeTransitive(r, a, b);
    ReviewsAgeTransitive(r, b, Concluded(r, id, step, verdict));
  }

  lemma PlanV1Keeps(env: Env, t: Tables, actor: Principal, change: Change)
    requires Sound(t) && PlanV1(env, t, actor, change).Done?
    ensures var after := PlanV1(env, t, actor, change).tables;
      Sound(after) && Ages(t, after)
  {
    hide Examine, StepAdded, FindingsAdded, SoundReviews, ReviewsAge, Unique, Evolves, Settled;
    var x := Examine(env, actor, change, t.answers).value;
    ExaminedFindings(env, actor, change, t.answers);
    SettlePartitions(env, actor, change, t.answers);
    OpenKeeps(t.reviews, actor, x);
    var id := |t.reviews.reviews| + 1;
    var added := FindingsAdded(Opened(t.reviews, actor, x), id, x.findings);
    StepKeeps(added, id, PlanStepOf(x));
    ReviewsAgeTransitive(t.reviews, added, StepAdded(added, id, PlanStepOf(x)));
  }

  lemma FiltersAgent(findings: seq<Finding>)
    ensures forall k :: 0 <= k < |Filter(IsAgent, findings)| ==> IsAgent(Filter(IsAgent, findings)[k])
  {
    FilterMembers(IsAgent, findings);
  }

  lemma NothingEvolves(rows: seq<DispositionRow>)
    ensures Evolves(rows, rows)
  {
  }

  lemma SubmitKeeps(env: Env, t: Tables, actor: Principal, id: nat, agent: seq<AgentFinding>)
    requires Sound(t) && Submit(env, t, actor, id, agent).Done?
    ensures var after := Submit(env, t, actor, id, agent).tables;
      Sound(after) && Ages(t, after)
  {
    hide ScopedAgent, Final, Filter, FindingsStepOf, ComputeVerdict, FindingsOf, AddedOfReview, Shown,
         SoundReviews, ReviewsAge, Unique, Evolves, Concluded, AgentReplaced;
    var row := RowOf(t.reviews, id);
    var det := Filter(Dedup.IsDeterministic, FindingsOf(t.reviews, id));
    var j := Judge(env, t.answers, row.projectId, env.config(row.projectId), det, AddedOfReview(t.reviews, id), agent,
                   row.status == Completed);
    FiltersAgent(Final(env, t.answers, row.projectId, det,
      ScopedAgent(env, env.config(row.projectId), AddedOfReview(t.reviews, id),
                  Take(agent, env.config(row.projectId).policy.maxAgentFindings))));
    ReplaceKeeps(t.reviews, id, j.agentFinal);
    var replaced := AgentReplaced(t.reviews, id, j.agentFinal);
    assert Exists(replaced, id) by {
      StillExists(t.reviews, replaced, id);
    }
    ConcludedKeeps(replaced, id, j.step, j.verdict);
    ReviewsAgeTransitive(t.reviews, replaced, Concluded(replaced, id, j.step, j.verdict));
    NothingEvolves(t.answers);
  }

  lemma StillExists(a: Reviews, b: Reviews, id: nat)
    requires ReviewsAge(a, b) && Exists(a, id)
    ensures Exists(b, id)
  {
  }

  lemma {:induction false} RecordedKeeps(env: Env, actor: Principal, projectId: nat, shown: seq<Finding>,
                                         rows: seq<DispositionRow>, responses: seq<Response>)
    requires Unique(rows) && AllRecorded(env, actor, projectId, shown, rows, responses).Ok?
    ensures var after := AllRecorded(env, actor, projectId, shown, rows, responses).value;
      Unique(after) && Evolves(rows, after)
    decreases |responses|
  {
    hide Unique, Evolves, Resolve, Answered;
    if responses == [] {
      NothingEvolves(rows);
    } else {
      var front := responses[..|responses| - 1];
      RecordedKeeps(env, actor, projectId, shown, rows, front);
      var before := AllRecorded(env, actor, projectId, shown, rows, front).value;
      var last := responses[|responses| - 1];
      var row := AnswerRow(env, actor, projectId, Resolve(last.finding, shown).value, last);
      AnsweredHolds(before, row);
      EvolvesTransitive(rows, before, Answered(before, row));
    }
  }

  lemma RespondKeeps(env: Env, t: Tables, actor: Principal, id: nat, responses: seq<Response>)
    requires Sound(t) && Respond(env, t, actor, id, responses).Done?
    ensures var after := Respond(env, t, actor, id, responses).tables;
      Sound(after) && Ages(t, after) && after.reviews.findings == t.reviews.findings
  {
    hide AllRecorded, Answer, ComputeVerdict, FindingsOf, SoundReviews, ReviewsAge, Unique, Evolves, Shown, StepsOf, MaxNumber;
    var Done(after, verdict) := Respond(env, t, actor, id, responses);
    var row := RowOf(t.reviews, id);
    RecordedKeeps(env, actor, row.projectId, Shown(t.reviews, id), t.answers, responses);
    var final := Answer(env, after.answers, row.projectId, FindingsOf(t.reviews, id));
    var step := ResponsesStep(Map(Said, responses), actor.email, Count(IsMuted, final));
    var stepped := StepAdded(t.reviews, id, step);
    StepKeeps(t.reviews, id, step);
    CompleteKeeps(stepped, id, verdict);
    ReviewsAgeTransitive(t.reviews, stepped, after.reviews);
  }

  lemma CreateKeeps(env: Env, t: Tables, actor: Principal, change: Change, agent: seq<AgentFinding>)
    requires Sound(t) && CreateReview(env, t, actor, change, agent).Done?
    ensures var after := CreateReview(env, t, actor, change, agent).tables;
      Sound(after) && Ages(t, after)
  {
    hide PlanV1, Submit, CreateReview, Ages, Grounded, Unique;
    VersionsAgree(env, t, actor, change, agent);
    PlanV1Keeps(env, t, actor, change);
    var planned := PlanV1(env, t, actor, change).tables;
    var id := PlanV1(env, t, actor, change).value.reviewId.value;
    SubmitKeeps(env, planned, actor, id, agent);
    AgesTransitive(t, planned, Submit(env, planned, actor, id, agent).tables);
  }

  // --- runs ---

  /** One request: who asks what, under which configuration. */
  datatype Call =
    | AskPlan(env: Env, actor: Principal, change: Change)
    | AskPlanV1(env: Env, actor: Principal, change: Change)
    | AskSubmit(env: Env, actor: Principal, id: nat, agent: seq<AgentFinding>)
    | AskCreate(env: Env, actor: Principal, change: Change, agent: seq<AgentFinding>)
    | AskRespond(env: Env, actor: Principal, id: nat, responses: seq<Response>)

  function Exec(t: Tables, call: Call): Tables {
    match call
    case AskPlan(env, actor, change) => Committed(t, PlanOnly(env, t, actor, change))
    case AskPlanV1(env, actor, change) => Committed(t, PlanV1(env, t, actor, change))
    case AskSubmit(env, actor, id, agent) => Committed(t, Submit(env, t, actor, id, agent))
    case AskCreate(env, actor, change, agent) => Committed(t, CreateReview(env, t, actor, change, agent))
    case AskRespond(env, actor, id, responses) => Committed(t, Respond(env, t, actor, id, responses))
  }

  function Run(t: Tables, calls: seq<Call>): Tables
    decreases |calls|
  {
    if calls == [] then t else Run(Exec(t, calls[0]), calls[1..])
  }

  lemma AgesReflexive(t: Tables)
    ensures Ages(t, t)
  {
  }

  lemma ExecKeeps(t: Tables, call: Call)
    requires Sound(t)
    ensures Sound(Exec(t, call)) && Ages(t, Exec(t, call))
  {
    hide Sound, Ages, PlanV1, Submit, CreateReview, Respond, Examine;
    AgesReflexive(t);
    match call
    case AskPlan(env, actor, change) =>
    case AskPlanV1(env, actor, change) =>
      if PlanV1(env, t, actor, change).Done? {
        PlanV1Keeps(env, t, actor, change);
      }
    case AskSubmit(env, actor, id, agent) =>
      if Submit(env, t, actor, id, agent).Done? {
        SubmitKeeps(env, t, actor, id, agent);
      }
    case AskCreate(env, actor, change, agent) =>
      if CreateReview(env, t, actor, change, agent).Done? {
        CreateKeeps(env, t, actor, change, agent);
      }
    case AskRespond(env, actor, id, responses) =>
      if Respond(env, t, actor, id, responses).Done? {
        RespondKeeps(env, t, actor, id, responses);
      }
  }

  /** Over every run: one answer at most stands for each project and fingerprint, no row of answers is removed, a
      revoked row never changes and the only answer rewritten in place is a `fixed` claim, to confirmed; steps count
      up without a gap and are only added to; and what the server found stays, ahead of the agent's findings. */
  lemma {:induction false} RunKeeps(t: Tables, calls: seq<Call>)
    requires Sound(t)
    ensures Sound(Run(t, calls)) && Ages(t, Run(t, calls))
    decreases |calls|
  {
    hide Sound, Ages, Exec;
    if calls == [] {
      AgesReflexive(t);
    } else {
      ExecKeeps(t, calls[0]);
      RunKeeps(Exec(t, calls[0]), calls[1..]);
      AgesTransitive(t, Exec(t, calls[0]), Run(t, calls));
    }
  }

  lemma EmptyIsSound()
    ensures Sound(Tables(Reviews([], [], []), []))
  {
  }

  // --- numbers ---

  /** What a number counts through: the active deterministic findings, then the active findings of the agent. */
  lemma ShownInTwo(r: Reviews, id: nat)
    requires SoundReviews(r)
    ensures Shown(r, id) == Filter(IsActive, Deterministic(r, id)) + Filter(IsActive, Filter(IsAgent, FindingsOf(r, id)))
  {
    hide Filter, FindingsOf;
    assert DeterministicFirst(FindingsOf(r, id));
    FilterConcat(IsActive, Deterministic(r, id), Filter(IsAgent, FindingsOf(r, id)));
  }

  /** Numbers are stable: over any run the findings of the server a review shows stay the same, first and in the same
      order, so their numbers always point at the same problem. */
  lemma NumbersAreStable(t: Tables, calls: seq<Call>, id: nat, n: nat)
    requires Sound(t) && Exists(t.reviews, id)
    requires 1 <= n <= |Filter(IsActive, Deterministic(t.reviews, id))|
    ensures Resolve(Number(n), Shown(Run(t, calls).reviews, id)) == Resolve(Number(n), Shown(t.reviews, id))
    ensures Resolve(Number(n), Shown(t.reviews, id)) == Ok(Filter(IsActive, Deterministic(t.reviews, id))[n - 1].fingerprint)
  {
    hide Shown, Deterministic, SoundReviews, Filter, Ages, Run, FindingsOf, Unique;
    RunKeeps(t, calls);
    StaysDeterministic(t, Run(t, calls), id);
    ShownInTwo(t.reviews, id);
    ShownInTwo(Run(t, calls).reviews, id);
    assert Filter(IsActive, Deterministic(t.reviews, id)) <= Shown(t.reviews, id);
    assert Filter(IsActive, Deterministic(t.reviews, id)) <= Shown(Run(t, calls).reviews, id);
  }

  /** No request of the run submits to the review. */
  predicate Leaves(calls: seq<Call>, id: nat) {
    forall k :: 0 <= k < |calls| ==> !(calls[k].AskSubmit? && calls[k].id == id)
  }

  lemma ExecLeaves(t: Tables, call: Call, id: nat)
    requires Sound(t) && Exists(t.reviews, id)
    requires !(call.AskSubmit? && call.id == id)
    ensures FindingsOf(Exec(t, call).reviews, id) == FindingsOf(t.reviews, id)
  {
    hide Examine, FindingsOf, Judge, Concluded, StepAdded, FindingsAdded, AgentReplaced, AllRecorded, Answer,
         ComputeVerdict, Shown, Sound;
    match call
    case AskPlan(env, actor, change) =>
    case AskPlanV1(env, actor, change) =>
      if PlanV1(env, t, actor, change).Done? {
        PlanV1Leaves(env, t, actor, change, id);
      }
    case AskSubmit(env, actor, other, agent) =>
      if Submit(env, t, actor, other, agent).Done? {
        SubmitLeaves(env, t, actor, other, agent, id);
      }
    case AskCreate(env, actor, change, agent) =>
      if CreateReview(env, t, actor, change, agent).Done? {
        hide CreateReview, PlanV1, Submit;
        assert Grounded(t.reviews) by {
          SoundIsGrounded(t);
        }
        VersionsAgree(env, t, actor, change, agent);
        PlanV1Leaves(env, t, actor, change, id);
        var Done(planned, plan) := PlanV1(env, t, actor, change);
        PlanIsNew(env, t, actor, change);
        SubmitLeaves(env, planned, actor, plan.reviewId.value, agent, id);
      }
    case AskRespond(env, actor, other, responses) =>
      if Respond(env, t, actor, other, responses).Done? {
        hide Respond;
        RespondVerdictStands(env, t, actor, other, responses);
        SameRowsSameFindings(Exec(t, call).reviews, t.reviews, id);
      }
  }

  lemma SoundIsGrounded(t: Tables)
    requires Sound(t)
    ensures Grounded(t.reviews)
  {
  }

  lemma PlanIsNew(env: Env, t: Tables, actor: Principal, change: Change)
    requires PlanV1(env, t, actor, change).Done?
    ensures PlanV1(env, t, actor, change).value.reviewId == Some(|t.reviews.reviews| + 1)
  {
    hide Examine, FindingsAdded, StepAdded, Filter;
  }

  lemma StepLeaves(r: Reviews, id: nat, payload: Payload)
    ensures StepAdded(r, id, payload).findings == r.findings
  {
  }

  lemma PlanV1Leaves(env: Env, t: Tables, actor: Principal, change: Change, id: nat)
    requires PlanV1(env, t, actor, change).Done? && Exists(t.reviews, id)
    ensures FindingsOf(PlanV1(env, t, actor, change).tables.reviews, id) == FindingsOf(t.reviews, id)
  {
    hide Examine, FindingsOf, StepAdded, FindingsAdded;
    var x := Examine(env, actor, change, t.answers).value;
    var newId := |t.reviews.reviews| + 1;
    var created := Opened(t.reviews, actor, x);
    var added := FindingsAdded(created, newId, x.findings);
    FindingsOfAdded(created, newId, id, x.findings);
    StepLeaves(added, newId, PlanStepOf(x));
    SameRowsSameFindings(created, t.reviews, id);
    SameRowsSameFindings(StepAdded(added, newId, PlanStepOf(x)), added, id);
  }

  lemma SubmitLeaves(env: Env, t: Tables, actor: Principal, other: nat, agent: seq<AgentFinding>, id: nat)
    requires Submit(env, t, actor, other, agent).Done? && id != other
    ensures FindingsOf(Submit(env, t, actor, other, agent).tables.reviews, id) == FindingsOf(t.reviews, id)
  {
    hide FindingsOf, Judge, Concluded, AgentReplaced, Shown, Filter, AddedOfReview;
    var row := RowOf(t.reviews, other);
    var det := Filter(Dedup.IsDeterministic, FindingsOf(t.reviews, other));
    var j := Judge(env, t.answers, row.projectId, env.config(row.projectId), det, AddedOfReview(t.reviews, other), agent,
                   row.status == Completed);
    var replaced := AgentReplaced(t.reviews, other, j.agentFinal);
    FindingsOfReplaced(t.reviews, other, id, j.agentFinal);
    assert Exists(replaced, other) by {
      ReplacedExists(t.reviews, other, j.agentFinal);
    }
    ConcludedHolds(replaced, other, j.step, j.verdict);
    SameRowsSameFindings(Concluded(replaced, other, j.step, j.verdict), replaced, id);
  }

  lemma ReplacedExists(r: Reviews, id: nat, batch: seq<Finding>)
    ensures Exists(AgentReplaced(r, id, batch), id) <==> Exists(r, id)
  {
  }

  /** Between two submits every number means what it was shown as, whatever has been answered since. */
  lemma {:induction false} NumbersBetweenSubmits(t: Tables, calls: seq<Call>, id: nat)
    requires Sound(t) && Exists(t.reviews, id) && Leaves(calls, id)
    ensures Shown(Run(t, calls).reviews, id) == Shown(t.reviews, id)
    decreases |calls|
  {
    hide Sound, Exec, FindingsOf, Ages;
    if calls != [] {
      ExecLeaves(t, calls[0], id);
      ExecKeeps(t, calls[0]);
      AgesExists(t, Exec(t, calls[0]), id);
      NumbersBetweenSubmits(Exec(t, calls[0]), calls[1..], id);
    }
  }

  lemma AgesExists(a: Tables, b: Tables, id: nat)
    requires Ages(a, b) && Exists(a.reviews, id)
    ensures Exists(b.reviews, id)
  {
  }

  // --- planning ---

  /** A plan writes nothing, and foretells: the review a following `create_review` makes of the same change stores, ahead
      of the agent's, exactly the plan's findings, and shows the plan's active ones first. */
  lemma PlanForetells(env: Env, t: Tables, actor: Principal, change: Change, agent: seq<AgentFinding>)
    requires Sound(t)
    ensures match PlanOnly(env, t, actor, change) {
      case Failed(e) => CreateReview(env, t, actor, change, agent) == Failed(e)
      case Done(same, plan) =>
        same == t &&
        var Done(after, (id, ruling)) := CreateReview(env, t, actor, change, agent);
        && Forgotten(plan.findings) == Filter(IsActive, Deterministic(after.reviews, id))
        && Forgotten(plan.findings) <= ruling.shown
        && Forgotten(plan.suppressed) == Filter(IsMuted, Deterministic(after.reviews, id))
    }
  {
    hide Examine, Judge, Concluded, StepAdded, FindingsAdded, Filter, FindingsOf, Shown, SoundReviews, ReviewsAge;
    match Examine(env, actor, change, t.answers)
    case Err(e) =>
    case Ok(x) =>
      ExaminedFindings(env, actor, change, t.answers);
      var Done(after, (id, ruling)) := CreateReview(env, t, actor, change, agent);
      CreatedDeterministic(env, t, actor, change, agent);
      FilterMaps(IsActive, Forget, x.findings);
      FilterMaps(IsMuted, Forget, x.findings);
      CreateKeeps(env, t, actor, change, agent);
      ShownInTwo(after.reviews, id);
  }

  lemma CreatedDeterministic(env: Env, t: Tables, actor: Principal, change: Change, agent: seq<AgentFinding>)
    requires Sound(t) && Examine(env, actor, change, t.answers).Ok?
    ensures var Done(after, (id, ruling)) := CreateReview(env, t, actor, change, agent);
      Deterministic(after.reviews, id) == Forgotten(Examine(env, actor, change, t.answers).value.findings)
  {
    hide Examine, Submit, CreateReview, Filter, FindingsOf, StepAdded, FindingsAdded, SoundReviews, ReviewsAge, Unique, Settled;
    var x := Examine(env, actor, change, t.answers).value;
    SoundIsGrounded(t);
    ExaminedFindings(env, actor, change, t.answers);
    VersionsAgree(env, t, actor, change, agent);
    PlanV1Keeps(env, t, actor, change);
    var Done(planned, plan) := PlanV1(env, t, actor, change);
    PlannedHolds(t.reviews, actor, x);
    SubmitKeeps(env, planned, actor, plan.reviewId.value, agent);
    StaysDeterministic(planned, Submit(env, planned, actor, plan.reviewId.value, agent).tables, plan.reviewId.value);
  }

  lemma StaysDeterministic(a: Tables, b: Tables, id: nat)
    requires Ages(a, b) && Exists(a.reviews, id)
    ensures Deterministic(b.reviews, id) == Deterministic(a.reviews, id)
  {
  }

  // --- resubmission ---

  /** The same but for the trail of steps. */
  predicate SameButSteps(a: Tables, b: Tables) {
    && a.answers == b.answers
    && a.reviews.reviews == b.reviews.reviews
    && a.reviews.findings == b.reviews.findings
  }

  lemma ReplacedTwice(r: Reviews, id: nat, a: seq<Finding>, b: seq<Finding>)
    requires forall k :: 0 <= k < |a| ==> IsAgent(a[k])
    ensures AgentReplaced(AgentReplaced(r, id, a), id, b) == AgentReplaced(r, id, b)
  {
    var kept := Filter(NotAgentOf(id), r.findings);
    FilterConcat(NotAgentOf(id), kept, Map(ToRow(id), a));
    FilterAll(NotAgentOf(id), Map(ToRow(id), a));
    FilterTwice(NotAgentOf(id), NotAgentOf(id), NotAgentOf(id), r.findings);
    assert kept + [] == kept;
  }

  /** What a submission writes, given its judgement. */
  lemma ConcludedWrites(r: Reviews, id: nat, step: Payload, verdict: Verdict)
    requires Exists(r, id)
    ensures var c := Concluded(r, id, step, verdict);
      c.findings == r.findings && c.reviews == r.reviews[id - 1 := Ruled(r.reviews[id - 1], verdict)]
  {
    hide StepsOf, MaxNumber;
  }

  /** The tables a submission leaves, spelt out. */
  lemma SubmitWrites(env: Env, t: Tables, actor: Principal, id: nat, agent: seq<AgentFinding>)
    requires Submit(env, t, actor, id, agent).Done?
    ensures var Done(after, ruling) := Submit(env, t, actor, id, agent);
      var row := RowOf(t.reviews, id);
      var j := Judge(env, t.answers, row.projectId, env.config(row.projectId), Deterministic(t.reviews, id), row.added,
                     agent, row.status == Completed);
      && (forall k :: 0 <= k < |j.agentFinal| ==> IsAgent(j.agentFinal[k]))
      && after.answers == t.answers && ruling.verdict == j.verdict && ruling.shown == Shown(after.reviews, id)
      && after.reviews.findings == AgentReplaced(t.reviews, id, j.agentFinal).findings
      && after.reviews.reviews == t.reviews.reviews[id - 1 := Ruled(row, j.verdict)]
  {
    hide FindingsOf, Concluded, Shown, Filter, Final, ScopedAgent, ComputeVerdict, FindingsStepOf;
    var row := RowOf(t.reviews, id);
    var config := env.config(row.projectId);
    var det := Deterministic(t.reviews, id);
    var j := Judge(env, t.answers, row.projectId, config, det, row.added, agent, row.status == Completed);
    FiltersAgent(Final(env, t.answers, row.projectId, det,
      ScopedAgent(env, config, row.added, Take(agent, config.policy.maxAgentFindings))));
    ConcludedWrites(AgentReplaced(t.reviews, id, j.agentFinal), id, j.step, j.verdict);
  }

  /** Whether it is a resubmission shows in the step only. */
  lemma ResubmitShowsInTheStep(env: Env, rows: seq<DispositionRow>, projectId: nat, config: Config, det: seq<Finding>,
                               added: Dict<set<nat>>, agent: seq<AgentFinding>, p: bool, q: bool)
    ensures var a := Judge(env, rows, projectId, config, det, added, agent, p);
      var b := Judge(env, rows, projectId, config, det, added, agent, q);
      a.agentFinal == b.agentFinal && a.verdict == b.verdict
  {
  }

  /** A second submission leaves what it would have left without the first. */
  lemma SubmitAgain(env: Env, t: Tables, one: Principal, a: seq<AgentFinding>, two: Principal, b: seq<AgentFinding>, id: nat)
    requires Submit(env, t, one, id, a).Done? && Submit(env, t, two, id, b).Done?
    ensures var first := Submit(env, t, one, id, a).tables;
      && Submit(env, first, two, id, b).Done?
      && SameButSteps(Submit(env, first, two, id, b).tables, Submit(env, t, two, id, b).tables)
      && Submit(env, first, two, id, b).value == Submit(env, t, two, id, b).value
  {
    hide Judge, Deterministic, AgentReplaced, Shown;
    var first := Submit(env, t, one, id, a).tables;
    SubmitWrites(env, t, one, id, a);
    SubmitWrites(env, t, two, id, b);
    var row := RowOf(t.reviews, id);
    var config := env.config(row.projectId);
    var det := Deterministic(t.reviews, id);
    var ja := Judge(env, t.answers, row.projectId, config, det, row.added, a, row.status == Completed);
    var jb := Judge(env, t.answers, row.projectId, config, det, row.added, b, row.status == Completed);
    assert Deterministic(first.reviews, id) == det by {
      SameDeterministic(first.reviews, AgentReplaced(t.reviews, id, ja.agentFinal), id);
      ReplacedDeterministic(t.reviews, id, ja.agentFinal);
    }
    assert RowOf(first.reviews, id) == Ruled(row, ja.verdict);
    assert Submit(env, first, two, id, b).Done? by {
      hide Concluded, Filter;
    }
    hide Submit;
    SubmitWrites(env, first, two, id, b);
    ResubmitShowsInTheStep(env, t.answers, row.projectId, config, det, row.added, b, row.status == Completed, true);
    ReplacedTwice(t.reviews, id, ja.agentFinal, jb.agentFinal);
    SameReplaced(first.reviews, AgentReplaced(t.reviews, id, ja.agentFinal), id, jb.agentFinal);
    SameShown(Submit(env, first, two, id, b).tables.reviews, Submit(env, t, two, id, b).tables.reviews, id);
  }

  lemma ReplacedDeterministic(r: Reviews, id: nat, batch: seq<Finding>)
    requires forall k :: 0 <= k < |batch| ==> IsAgent(batch[k])
    ensures Deterministic(AgentReplaced(r, id, batch), id) == Deterministic(r, id)
  {
    hide FindingsOf, Filter, AgentReplaced;
    FindingsOfReplaced(r, id, id, batch);
    StoredAreDeterministic(FindingsOf(r, id));
    HalvesOfConcat(Deterministic(r, id), Forgotten(batch));
  }

  lemma SameReplaced(a: Reviews, b: Reviews, id: nat, batch: seq<Finding>)
    requires a.findings == b.findings
    ensures AgentReplaced(a, id, batch).findings == AgentReplaced(b, id, batch).findings
  {
  }

  lemma SameShown(a: Reviews, b: Reviews, id: nat)
    requires a.findings == b.findings
    ensures Shown(a, id) == Shown(b, id)
  {
  }

  /** Submissions to one review, one after the other. */
  function Submissions(env: Env, t: Tables, id: nat, all: seq<(Principal, seq<AgentFinding>)>): Tables
    decreases |all|
  {
    if all == [] then t else Submissions(env, Exec(t, AskSubmit(env, all[0].0, id, all[0].1)), id, all[1..])
  }

  /** With the answers and the configuration as they are, any number of submissions leaves the findings, the verdict and
      the answers of the last alone: submitting again is idempotent up to the trail. */
  lemma {:induction false} LastSubmitWins(env: Env, t: Tables, id: nat, all: seq<(Principal, seq<AgentFinding>)>)
    requires all != []
    requires Submit(env, t, all[|all| - 1].0, id, all[|all| - 1].1).Done?
    ensures SameButSteps(Submissions(env, t, id, all), Submit(env, t, all[|all| - 1].0, id, all[|all| - 1].1).tables)
    decreases |all|
  {
    hide Submit;
    var last := all[|all| - 1];
    var first := Exec(t, AskSubmit(env, all[0].0, id, all[0].1));
    if |all| > 1 {
      if Submit(env, t, all[0].0, id, all[0].1).Done? {
        SubmitAgain(env, t, all[0].0, all[0].1, last.0, last.1, id);
      }
      LastSubmitWins(env, first, id, all[1..]);
    } else {
      assert Submissions(env, t, id, all) == first;
    }
  }
}
