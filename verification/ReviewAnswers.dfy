// What a developer answers is recorded as it was given, is heard, and is checked by the next review.
module ReviewAnswers {
  import opened Strings
  import opened Sorting
  import opened Findings
  import opened ReviewTables
  import opened ReviewProtocol
  import opened ReviewFacts
  import opened ReviewVersions
  import opened ReviewVerdicts
  import opened ReviewReports

  // --- what is recorded ---

  /** A developer points at a finding shown: by its number, counting from 1, or by its fingerprint. */
  ghost predicate PointsTo(reference: Reference, shown: seq<Finding>, fp: string) {
    match reference
    case Number(n) => 1 <= n <= |shown| && shown[n - 1].fingerprint == fp
    case Id(id) => id == fp && exists k :: 0 <= k < |shown| && shown[k].fingerprint == fp
  }

  lemma ResolveIsPointed(reference: Reference, shown: seq<Finding>)
    ensures forall fp :: Resolve(reference, shown) == Ok(fp) <==> PointsTo(reference, shown, fp)
    ensures Resolve(reference, shown).Err? <==> forall fp :: !PointsTo(reference, shown, fp)
  {
    match reference
    case Number(n) =>
      if 1 <= n <= |shown| {
        assert PointsTo(reference, shown, shown[n - 1].fingerprint);
      }
    case Id(id) =>
      if id in Fingerprints(shown) {
        var f :| f in shown && f.fingerprint == id;
        var k :| 0 <= k < |shown| && shown[k] == f;
        assert PointsTo(reference, shown, id);
      }
      if k :| 0 <= k < |shown| && shown[k].fingerprint == id {
        assert shown[k] in shown;
      }
  }

  /** One of the responses from the given place on is about the fingerprint. */
  ghost predicate Mentions(shown: seq<Finding>, responses: seq<Response>, fp: string, start: int) {
    exists j :: start <= j < |responses| && 0 <= j && PointsTo(responses[j].finding, shown, fp)
  }

  /** The row of response `k`: for the fingerprint it points to, as it was given, and standing unless a later response of the
      list is about the same one. */
  ghost predicate RowOfResponse(env: Env, actor: Principal, projectId: nat, shown: seq<Finding>, responses: seq<Response>,
                                k: int, row: DispositionRow)
  {
    && 0 <= k < |responses|
    && PointsTo(responses[k].finding, shown, row.fingerprint)
    && row == DispositionRow(projectId, row.fingerprint, responses[k].disposition, Strip(responses[k].note), actor.userId,
                             env.today, Mentions(shown, responses, row.fingerprint, k + 1))
  }

  /** The rows an accepted list leaves: one behind the others for each response, and of those before, the ones of the
      project revoked that a response is about. */
  lemma {:induction false} RecordedRows(env: Env, actor: Principal, projectId: nat, shown: seq<Finding>,
                                        rows: seq<DispositionRow>, responses: seq<Response>)
    requires AllRecorded(env, actor, projectId, shown, rows, responses).Ok?
    ensures var after := AllRecorded(env, actor, projectId, shown, rows, responses).value;
      && |after| == |rows| + |responses|
      && (forall i :: 0 <= i < |rows| ==>
            after[i] == if rows[i].projectId == projectId && Mentions(shown, responses, rows[i].fingerprint, 0)
                        then rows[i].(revoked := true) else rows[i])
      && (forall i :: |rows| <= i < |after| ==>
            RowOfResponse(env, actor, projectId, shown, responses, i - |rows|, after[i]))
    decreases |responses|
  {
    hide PointsTo, Resolve;
    if responses != [] {
      var front, last := responses[..|responses| - 1], responses[|responses| - 1];
      RecordedRows(env, actor, projectId, shown, rows, front);
      var before := AllRecorded(env, actor, projectId, shown, rows, front).value;
      ResolveIsPointed(last.finding, shown);
      var fp := Resolve(last.finding, shown).value;
      var after := AllRecorded(env, actor, projectId, shown, rows, responses).value;
      assert after == Answered(before, AnswerRow(env, actor, projectId, fp, last));
      hide AllRecorded, Mentions;
      forall i | 0 <= i < |rows|
        ensures after[i] == if rows[i].projectId == projectId && Mentions(shown, responses, rows[i].fingerprint, 0)
                            then rows[i].(revoked := true) else rows[i]
      {
        OneMoreMention(shown, responses, rows[i].fingerprint, 0, fp);
      }
      forall i | |rows| <= i < |before|
        ensures RowOfResponse(env, actor, projectId, shown, responses, i - |rows|, after[i])
      {
        OneMoreMention(shown, responses, before[i].fingerprint, i - |rows| + 1, fp);
      }
      LastMention(shown, responses, fp);
    }
  }

  lemma LastMention(shown: seq<Finding>, responses: seq<Response>, fp: string)
    ensures !Mentions(shown, responses, fp, |responses|)
  {
  }

  lemma OneMoreMention(shown: seq<Finding>, responses: seq<Response>, fp: string, start: nat, last: string)
    requires start < |responses| && PointsTo(responses[|responses| - 1].finding, shown, last)
    ensures Mentions(shown, responses, fp, start) <==> Mentions(shown, responses[..|responses| - 1], fp, start) || fp == last
  {
    hide PointsTo;
    var front := responses[..|responses| - 1];
    PointsToOne(responses[|responses| - 1].finding, shown, last, fp);
    if j :| start <= j < |front| && PointsTo(front[j].finding, shown, fp) {
      assert PointsTo(responses[j].finding, shown, fp);
    }
    if j :| start <= j < |responses| && PointsTo(responses[j].finding, shown, fp) && j < |front| {
      assert PointsTo(front[j].finding, shown, fp);
    }
  }

  lemma PointsToOne(reference: Reference, shown: seq<Finding>, a: string, b: string)
    requires PointsTo(reference, shown, a)
    ensures PointsTo(reference, shown, b) <==> a == b
  {
  }

  /** Response `k` is the last word of the list on the fingerprint. */
  ghost predicate LastWord(shown: seq<Finding>, responses: seq<Response>, k: nat, fp: string) {
    k < |responses| && PointsTo(responses[k].finding, shown, fp) && !Mentions(shown, responses, fp, k + 1)
  }

  /** The last word on a finding is what stands for it: the disposition itself, the note without the white space around it,
      by whom and on which day; and every other answer of the project to it is revoked. */
  lemma RecordedStands(env: Env, actor: Principal, projectId: nat, shown: seq<Finding>, rows: seq<DispositionRow>,
                       responses: seq<Response>, k: nat, fp: string)
    requires AllRecorded(env, actor, projectId, shown, rows, responses).Ok?
    requires LastWord(shown, responses, k, fp)
    ensures var after := AllRecorded(env, actor, projectId, shown, rows, responses).value;
      && |rows| + k < |after|
      && after[|rows| + k]
         == DispositionRow(projectId, fp, responses[k].disposition, Strip(responses[k].note), actor.userId, env.today, false)
      && (forall i :: 0 <= i < |after| && i != |rows| + k && after[i].projectId == projectId && after[i].fingerprint == fp
            ==> after[i].revoked)
  {
    hide AllRecorded, PointsTo;
    RecordedRows(env, actor, projectId, shown, rows, responses);
    var after := AllRecorded(env, actor, projectId, shown, rows, responses).value;
    var i := |rows| + k;
    assert RowOfResponse(env, actor, projectId, shown, responses, i - |rows|, after[i]);
    PointsToOne(responses[k].finding, shown, after[i].fingerprint, fp);
    forall j | 0 <= j < |after| && j != i && after[j].projectId == projectId && after[j].fingerprint == fp
      ensures after[j].revoked
    {
      if j >= |rows| {
        assert RowOfResponse(env, actor, projectId, shown, responses, j - |rows|, after[j]);
        assert j > i ==> Mentions(shown, responses, fp, k + 1);
      } else {
        assert Mentions(shown, responses, fp, 0);
      }
    }
  }

  lemma RespondRecords(env: Env, t: Tables, actor: Principal, id: nat, responses: seq<Response>)
    requires Respond(env, t, actor, id, responses).Done?
    ensures Exists(t.reviews, id)
    ensures AllRecorded(env, actor, RowOf(t.reviews, id).projectId, Shown(t.reviews, id), t.answers, responses)
         == Ok(Respond(env, t, actor, id, responses).tables.answers)
  {
    hide ComputeVerdict, FindingsOf, Shown, AllRecorded, StepAdded, Count, Answer, Complete;
  }

  /** `respond` records the last word on a finding of its review as it was given, for the project the review is of. */
  lemma RespondStands(env: Env, t: Tables, actor: Principal, id: nat, responses: seq<Response>, k: nat, fp: string)
    returns (i: nat)
    requires Respond(env, t, actor, id, responses).Done?
    requires LastWord(Shown(t.reviews, id), responses, k, fp)
    ensures 1 <= id <= |t.reviews.reviews|
    ensures var rows, projectId := Respond(env, t, actor, id, responses).tables.answers, t.reviews.reviews[id - 1].projectId;
      && i == |t.answers| + k < |rows|
      && rows[i]
         == DispositionRow(projectId, fp, responses[k].disposition, Strip(responses[k].note), actor.userId, env.today, false)
      && LastAnswer(rows, projectId, fp, i)
      && (forall j :: 0 <= j < |rows| && j != i && rows[j].projectId == projectId && rows[j].fingerprint == fp
            ==> rows[j].revoked)
  {
    hide Respond, Shown, AllRecorded, LastWord;
    RespondRecords(env, t, actor, id, responses);
    i := |t.answers| + k;
    RecordedStands(env, actor, RowOf(t.reviews, id).projectId, Shown(t.reviews, id), t.answers, responses, k, fp);
  }

  // --- what is answered is heard ---

  /** A dismissal or an acceptance is heard: it settles the finding, no finding it answers is active any more, and the
      verdict is that of the findings so answered. */
  lemma MutingIsHeard(env: Env, t: Tables, actor: Principal, id: nat, responses: seq<Response>, k: nat, fp: string)
    requires Respond(env, t, actor, id, responses).Done?
    requires LastWord(Shown(t.reviews, id), responses, k, fp)
    requires responses[k].disposition == Dismissed || responses[k].disposition == Accepted
    ensures 1 <= id <= |t.reviews.reviews|
    ensures var Done(after, verdict) := Respond(env, t, actor, id, responses);
      var row := t.reviews.reviews[id - 1];
      var answered := Answer(env, after.answers, row.projectId, FindingsOf(t.reviews, id));
      && Settles(after.answers, row.projectId, fp)
      && (forall g :: g in answered && g.fingerprint == fp ==> g.suppressed)
      && verdict == ComputeVerdict(answered, env.config(row.projectId).policy)
  {
    hide FindingsOf, Shown, AllRecorded, LastWord, LastAnswer, Answer, ComputeVerdict, Count, Complete, StepAdded;
    var Done(after, verdict) := Respond(env, t, actor, id, responses);
    var i := RespondStands(env, t, actor, id, responses, k, fp);
    var row := t.reviews.reviews[id - 1];
    var findings := FindingsOf(t.reviews, id);
    var answered := Answer(env, after.answers, row.projectId, findings);
    forall g | g in answered && g.fingerprint == fp
      ensures g.suppressed
    {
      AnswerIsAnswered(env, after.answers, row.projectId, findings, g);
    }
  }

  lemma AnswerIsAnswered(env: Env, rows: seq<DispositionRow>, projectId: nat, findings: seq<Finding>, g: Finding)
    requires g in Answer(env, rows, projectId, findings)
    ensures exists f :: f in findings && IsAnswered(env, projectId, rows, f, g)
  {
    hide Active, ApplyTo, IsAnswered;
    var answered := Answer(env, rows, projectId, findings);
    var k :| 0 <= k < |answered| && answered[k] == g;
    assert findings[k] in findings && findings[k].fingerprint in Fingerprints(findings);
    AppliedIsAnswered(env, rows, projectId, findings[k], Fingerprints(findings));
  }

  /** What opening a review leaves of the answers: a standing answer to a claim nothing contradicts is a confirmation, a
      standing answer to one that is contradicted is revoked, and every other row is as it was. */
  lemma SettledRows(env: Env, t: Tables, actor: Principal, change: Change, agent: seq<AgentFinding>)
    requires Examine(env, actor, change, t.answers).Ok?
    ensures var x, rows := Examine(env, actor, change, t.answers).value, t.answers;
      var p, c := PlanV1(env, t, actor, change), CreateReview(env, t, actor, change, agent);
      && p.Done? && c.Done? && c.tables.answers == p.tables.answers && |p.tables.answers| == |rows|
      && (forall i :: 0 <= i < |rows| ==>
            p.tables.answers[i]
            == if rows[i].projectId != x.projectId || rows[i].revoked then rows[i]
               else if rows[i].fingerprint in x.confirmed then rows[i].(disposition := ConfirmedFixed)
               else if rows[i].fingerprint in x.regressed then rows[i].(revoked := true)
               else rows[i])
  {
    hide Found, Cap, Claimed, Fingerprints, Judge, FindingsAdded, StepAdded, Concluded, Shown, AsPlan, Opened, PlanStepOf;
    var x := Examine(env, actor, change, t.answers).value;
    assert x.confirmed !! x.regressed;
  }

  /** A claim that a finding is fixed is checked by the next review of the project: it is confirmed when nothing found has
      the fingerprint; else it is revoked, and everything found with it is said to have come back. */
  lemma FixedIsChecked(env: Env, t: Tables, actor: Principal, id: nat, responses: seq<Response>, k: nat, fp: string,
                       later: Env, who: Principal, change: Change)
    returns (i: nat, reported: seq<Finding>)
    requires Respond(env, t, actor, id, responses).Done?
    requires LastWord(Shown(t.reviews, id), responses, k, fp) && responses[k].disposition == Fixed
    requires Exists(t.reviews, id) && who.projectId == Some(t.reviews.reviews[id - 1].projectId)
    requires Examine(later, who, change, Respond(env, t, actor, id, responses).tables.answers).Ok?
    ensures var after, projectId := Respond(env, t, actor, id, responses).tables, t.reviews.reviews[id - 1].projectId;
      var x, p := Examine(later, who, change, after.answers).value, PlanV1(later, after, who, change);
      var claim := DispositionRow(projectId, fp, Fixed, Strip(responses[k].note), actor.userId, env.today, false);
      && i < |after.answers| && after.answers[i] == claim && fp in Claimed(after.answers, projectId)
      && p.Done? && |p.tables.answers| == |after.answers|
      && (exists dropped :: CutTo(reported, x.findings, dropped, later.maxFindings))
      && (if exists f :: f in reported && f.fingerprint == fp
          then p.tables.answers[i] == claim.(revoked := true)
          else p.tables.answers[i] == claim.(disposition := ConfirmedFixed))
      && (forall f :: f in reported && f.fingerprint == fp ==> f.regressed)
  {
    hide Respond, Shown, LastWord, LastAnswer, Examine, PlanV1, CutTo, EnabledPlaces, Claimed, Judged;
    var after := Respond(env, t, actor, id, responses).tables;
    var projectId := t.reviews.reviews[id - 1].projectId;
    i := RespondStands(env, t, actor, id, responses, k, fp);
    assert IsClaimed(after.answers, projectId, fp);
    ClaimedIsClaimed(after.answers, projectId, fp);
    var from, dropped;
    reported, from, dropped := ExamineReports(later, who, change, after.answers);
    SettledRows(later, after, who, change, []);
    hide IsClaimed;
    forall f | f in reported && f.fingerprint == fp
      ensures f.regressed && exists j :: 0 <= j < |reported| && reported[j].fingerprint == fp
    {
      var j :| 0 <= j < |reported| && reported[j] == f;
      assert reported[j].fingerprint == fp;
    }
  }
}
