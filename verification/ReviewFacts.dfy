// What each store operation does to the findings and steps of each review, and what forgetting `regressed` leaves.
module ReviewFacts {
  import opened Strings
  import opened Sorting
  import opened Findings
  import opened PatchApply
  import opened ReviewTables
  import opened ReviewProtocol
  import Dedup

  function Forgotten(findings: seq<Finding>): (r: seq<Finding>)
    ensures |r| == |findings|
  {
    Map(Forget, findings)
  }

  // --- the foreign keys ---

  /** Every finding and every step belongs to a review that exists. */
  ghost predicate Grounded(r: Reviews) {
    && (forall k :: 0 <= k < |r.findings| ==> Exists(r, r.findings[k].reviewId))
    && (forall k :: 0 <= k < |r.steps| ==> Exists(r, r.steps[k].reviewId))
  }

  lemma FreshHasNothing(r: Reviews, id: nat)
    requires Grounded(r) && !Exists(r, id)
    ensures FindingsOf(r, id) == [] && StepsOf(r, id) == []
    ensures Filter(NotAgentOf(id), r.findings) == r.findings
  {
    FilterAll(OfReview(id), r.findings);
    FilterAll(NotAgentOf(id), r.findings);
    FilterAll(StepOf(id), r.steps);
  }

  // --- findings ---

  lemma RowsAdded(id: nat, other: nat, batch: seq<Finding>)
    ensures Filter(OfReview(other), Map(ToRow(id), batch)) == if id == other then Map(ToRow(id), batch) else []
  {
    FilterAll(OfReview(other), Map(ToRow(id), batch));
  }

  lemma FindingsOfAdded(r: Reviews, id: nat, other: nat, batch: seq<Finding>)
    ensures FindingsOf(FindingsAdded(r, id, batch), other)
         == if id == other then FindingsOf(r, other) + Forgotten(batch) else FindingsOf(r, other)
  {
    RowsAdded(id, other, batch);
    FilterConcat(OfReview(other), r.findings, Map(ToRow(id), batch));
    MapConcat(FromRow, Filter(OfReview(other), r.findings), Filter(OfReview(other), Map(ToRow(id), batch)));
    assert Map(FromRow, Map(ToRow(id), batch)) == Forgotten(batch);
  }

  lemma MapConcat<T, U>(f: T -> U, a: seq<T>, b: seq<T>)
    ensures Map(f, a + b) == Map(f, a) + Map(f, b)
  {
  }

  /** Deleting the agent's rows of one review leaves its deterministic findings and every other review alone. */
  lemma {:induction false} AgentRowsGone(rows: seq<FindingRow>, id: nat, other: nat)
    ensures Map(FromRow, Filter(OfReview(other), Filter(NotAgentOf(id), rows)))
         == if id == other then Filter(Dedup.IsDeterministic, Map(FromRow, Filter(OfReview(id), rows)))
            else Map(FromRow, Filter(OfReview(other), rows))
  {
    if rows != [] {
      AgentRowsGone(rows[1..], id, other);
      var kept := Filter(NotAgentOf(id), rows[1..]);
      var mine := Filter(OfReview(other), rows[1..]);
      assert ([rows[0]] + kept)[1..] == kept;
      MapCons(FromRow, rows[0], mine);
      MapCons(FromRow, rows[0], Filter(OfReview(other), kept));
      assert ([FromRow(rows[0])] + Map(FromRow, mine))[1..] == Map(FromRow, mine);
    }
  }

  lemma MapCons<T, U>(f: T -> U, x: T, s: seq<T>)
    ensures Map(f, [x] + s) == [f(x)] + Map(f, s)
  {
  }

  lemma FindingsOfReplaced(r: Reviews, id: nat, other: nat, batch: seq<Finding>)
    ensures FindingsOf(AgentReplaced(r, id, batch), other)
         == if id == other then Filter(Dedup.IsDeterministic, FindingsOf(r, id)) + Forgotten(batch)
            else FindingsOf(r, other)
  {
    AgentRowsGone(r.findings, id, other);
    FindingsOfAdded(r.(findings := Filter(NotAgentOf(id), r.findings)), id, other, batch);
  }

  // --- forgetting ---

  lemma SameCounts(findings: seq<Finding>)
    ensures forall s :: Count(OfSeverity(s), Forgotten(findings)) == Count(OfSeverity(s), findings)
  {
    forall s
      ensures Count(OfSeverity(s), Forgotten(findings)) == Count(OfSeverity(s), findings)
    {
      FilterMaps(OfSeverity(s), Forget, findings);
    }
  }

  lemma VerdictForgets(findings: seq<Finding>, policy: Policy)
    ensures ComputeVerdict(Forgotten(findings), policy) == ComputeVerdict(findings, policy)
  {
    hide Filter, Count;
    var a, b := ComputeVerdict(Forgotten(findings), policy), ComputeVerdict(findings, policy);
    var active := Filter(IsActive, findings);
    FilterMaps(IsActive, Forget, findings);
    FilterMaps(SevereFor(policy), Forget, active);
    SameSeverities(active);
    SameCounts(active);
    assert a.counts == b.counts;
  }

  lemma SameSeverities(findings: seq<Finding>)
    ensures (set f | f in Forgotten(findings) :: f.severity) == (set f | f in findings :: f.severity)
  {
    forall f | f in findings
      ensures Forget(f) in Forgotten(findings)
    {
      var k :| 0 <= k < |findings| && findings[k] == f;
      assert Forgotten(findings)[k] == Forget(f);
    }
  }

  lemma SameFingerprints(findings: seq<Finding>)
    ensures Fingerprints(Forgotten(findings)) == Fingerprints(findings)
  {
    forall f | f in findings
      ensures Forget(f) in Forgotten(findings)
    {
      var k :| 0 <= k < |findings| && findings[k] == f;
      assert Forgotten(findings)[k] == Forget(f);
    }
  }

  lemma AnswerForgets(env: Env, rows: seq<DispositionRow>, projectId: nat, findings: seq<Finding>)
    ensures Answer(env, rows, projectId, Forgotten(findings)) == Forgotten(Answer(env, rows, projectId, findings))
  {
    SameFingerprints(findings);
  }

  lemma OverlapForgets(c: Finding, det: seq<Finding>)
    ensures Dedup.Overlaps(c, Forgotten(det)) == Dedup.Overlaps(c, det)
  {
    if Dedup.Overlaps(c, det) {
      var k :| 0 <= k < |det| && IsActive(det[k]) && Dedup.Near(det[k], c);
      assert IsActive(Forgotten(det)[k]) && Dedup.Near(Forgotten(det)[k], c);
    }
  }

  lemma KeysForget(det: seq<Finding>)
    ensures Dedup.ActiveKeys(Forgotten(det)) == Dedup.ActiveKeys(det)
  {
    forall key
      ensures key in Dedup.ActiveKeys(Forgotten(det)) <==> key in Dedup.ActiveKeys(det)
    {
      if key in Dedup.ActiveKeys(det) {
        var f :| f in det && IsActive(f) && Dedup.KeyOf(f) == key;
        var k :| 0 <= k < |det| && det[k] == f;
        assert Forgotten(det)[k] == Forget(f);
        assert Dedup.KeyOf(Forget(f)) == key;
      }
      if key in Dedup.ActiveKeys(Forgotten(det)) {
        var f :| f in Forgotten(det) && IsActive(f) && Dedup.KeyOf(f) == key;
        var k :| 0 <= k < |det| && Forgotten(det)[k] == f;
        assert Dedup.KeyOf(det[k]) == key;
      }
    }
  }

  lemma {:induction false} DecidedForgets(agent: seq<Finding>, det: seq<Finding>, seen: set<Dedup.Key>)
    ensures Dedup.Decided(agent, Forgotten(det), seen) == Dedup.Decided(agent, det, seen)
    decreases |agent|
  {
    hide Dedup.Overlaps;
    if agent != [] {
      OverlapForgets(agent[0], det);
      var first := Dedup.Decide(agent[0], det, seen);
      DecidedForgets(agent[1..], det, if IsActive(first) then seen + {Dedup.KeyOf(first)} else seen);
    }
  }

  /** A merge does not look at what the tables forget. */
  lemma MergedForgets(det: seq<Finding>, agent: seq<Finding>)
    ensures Forgotten(Dedup.Merged(Forgotten(det), agent)) == Forgotten(Dedup.Merged(det, agent))
  {
    hide Dedup.Decided, Sort, Dedup.ActiveKeys;
    KeysForget(det);
    DecidedForgets(agent, det, Dedup.ActiveKeys(det));
    var decided := Dedup.Decided(agent, det, Dedup.ActiveKeys(det));
    SortMaps(Dedup.MergeOrder, Forget, Forgotten(det) + decided);
    SortMaps(Dedup.MergeOrder, Forget, det + decided);
    assert Forgotten(Forgotten(det) + decided) == Forgotten(det + decided);
  }

  lemma CountForgets(p: Finding -> bool, findings: seq<Finding>)
    requires forall f :: p(Forget(f)) == p(f)
    ensures Count(p, Forgotten(findings)) == Count(p, findings)
  {
    FilterMaps(p, Forget, findings);
  }

  /** Neither does the judgement: stored findings judge like the ones they were stored from. */
  lemma JudgeForgets(env: Env, rows: seq<DispositionRow>, projectId: nat, config: Config, det: seq<Finding>,
                     added: Dict<set<nat>>, agent: seq<AgentFinding>, resubmit: bool)
    ensures var a := Judge(env, rows, projectId, config, Forgotten(det), added, agent, resubmit);
      var b := Judge(env, rows, projectId, config, det, added, agent, resubmit);
      a.verdict == b.verdict && a.step == b.step && Forgotten(a.agentFinal) == Forgotten(b.agentFinal)
  {
    hide Dedup.Merged, Answer, ComputeVerdict, ScopedAgent, Filter;
    var scoped := ScopedAgent(env, config, added, Take(agent, config.policy.maxAgentFindings));
    var a := Final(env, rows, projectId, Forgotten(det), scoped);
    var b := Final(env, rows, projectId, det, scoped);
    assert Forgotten(a) == Forgotten(b) by {
      MergedForgets(det, scoped);
      AnswerForgets(env, rows, projectId, Dedup.Merged(Forgotten(det), scoped));
      AnswerForgets(env, rows, projectId, Dedup.Merged(det, scoped));
    }
    VerdictForgets(a, config.policy);
    VerdictForgets(b, config.policy);
    FilterMaps(IsAgent, Forget, a);
    FilterMaps(IsAgent, Forget, b);
    CountForgets(IsActive, Filter(IsAgent, a));
    CountForgets(IsActive, Filter(IsAgent, b));
    CountForgets(IsMuted, Filter(IsAgent, a));
    CountForgets(IsMuted, Filter(IsAgent, b));
  }
}
