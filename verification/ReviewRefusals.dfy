// Who is refused, and why: each call goes through exactly when nothing speaks against it, and else names the first thing
// that does.
module ReviewRefusals {
  import opened Strings
  import opened Sorting
  import opened UnifiedDiff
  import opened PatchApply
  import opened Findings
  import opened ReviewTables
  import opened ReviewProtocol
  import opened ReviewAnswers
  import Dedup
  import Suppression

  /** What speaks against acting on a review: there is none, it is another project's, or an API key's that is not its
      author's. */
  function AgainstReview(t: Tables, actor: Principal, id: nat): Option<Error> {
    if !(1 <= id <= |t.reviews.reviews|) then Some(NoSuchReview)
    else if actor.projectId != Some(t.reviews.reviews[id - 1].projectId) then Some(OtherProject)
    else if actor.viaKey && actor.userId != t.reviews.reviews[id - 1].userId then Some(OtherDeveloper)
    else None
  }

  /** What speaks against examining a change. */
  function AgainstChange(env: Env, actor: Principal, change: Change): Option<Error> {
    if actor.projectId == None then Some(NotScoped)
    else if env.size(change.diff) > env.maxDiffBytes then Some(TooLarge)
    else if Parse(change.diff) == [] then Some(NoChanges)
    else match env.trivial(env.config(actor.projectId.value), change.platform, Parse(change.diff))
      case Some(why) => Some(Skipped(why))
      case None => None
  }

  /** What speaks against one response: a dismissal or an acceptance that gives no reason, an acceptance by somebody who is
      no lead, or a finding that is not shown. */
  ghost function AgainstResponse(actor: Principal, shown: seq<Finding>, response: Response): Option<Error> {
    var Response(finding, disposition, note) := response;
    if (disposition == Dismissed || disposition == Accepted) && (forall i :: 0 <= i < |note| ==> IsSpace(note[i])) then
      Some(NeedsReason(disposition))
    else if disposition == Accepted && !actor.isLead then Some(LeadOnly)
    else if exists fp :: PointsTo(finding, shown, fp) then None
    else match finding
      case Number(n) => Some(NoSuchNumber(n))
      case Id(_) => Some(NotInReview)
  }

  /** Response `k` is the first that something speaks against. */
  ghost predicate FirstRefused(actor: Principal, shown: seq<Finding>, responses: seq<Response>, k: int, e: Error) {
    && 0 <= k < |responses| && AgainstResponse(actor, shown, responses[k]) == Some(e)
    && forall j :: 0 <= j < k ==> AgainstResponse(actor, shown, responses[j]) == None
  }

  /** Planning and reviewing are refused alike, by the change alone. */
  lemma ChangeRefused(env: Env, t: Tables, actor: Principal, change: Change, agent: seq<AgentFinding>)
    ensures match AgainstChange(env, actor, change) {
        case Some(e) =>
          && PlanOnly(env, t, actor, change) == Failed(e) && PlanV1(env, t, actor, change) == Failed(e)
          && CreateReview(env, t, actor, change, agent) == Failed(e)
        case None =>
          && PlanOnly(env, t, actor, change).Done? && PlanV1(env, t, actor, change).Done?
          && CreateReview(env, t, actor, change, agent).Done?
          && PlanOnly(env, t, actor, change).tables == t
      }
  {
    hide Parse, AddedLines, Found, Claimed, Cap, Judge, Fingerprints, Settled, FindingsAdded, StepAdded, Concluded, AsPlan, Shown;
  }

  lemma SubmissionRefused(env: Env, t: Tables, actor: Principal, id: nat, agent: seq<AgentFinding>)
    ensures match AgainstReview(t, actor, id) {
        case Some(e) => Submit(env, t, actor, id, agent) == Failed(e)
        case None => Submit(env, t, actor, id, agent).Done?
      }
  {
    hide Judge, AgentReplaced, Concluded, FindingsOf, Filter, Shown;
  }

  lemma RecordedIff(env: Env, actor: Principal, projectId: nat, shown: seq<Finding>, rows: seq<DispositionRow>,
                    response: Response)
    ensures match AgainstResponse(actor, shown, response) {
        case Some(e) => Recorded(env, actor, projectId, shown, rows, response) == Err(e)
        case None => Recorded(env, actor, projectId, shown, rows, response).Ok?
      }
  {
    ResolveIsPointed(response.finding, shown);
    StripsToNothing(response.note);
    hide PointsTo, Strip;
  }

  lemma {:induction false} AllRecordedIff(env: Env, actor: Principal, projectId: nat, shown: seq<Finding>,
                                          rows: seq<DispositionRow>, responses: seq<Response>)
    ensures var r := AllRecorded(env, actor, projectId, shown, rows, responses);
      && (r.Ok? <==> forall k :: 0 <= k < |responses| ==> AgainstResponse(actor, shown, responses[k]) == None)
      && (r.Err? ==> exists k :: FirstRefused(actor, shown, responses, k, r.error))
    decreases |responses|
  {
    hide AgainstResponse, Recorded;
    if responses != [] {
      var front, last := responses[..|responses| - 1], |responses| - 1;
      AllRecordedIff(env, actor, projectId, shown, rows, front);
      var before := AllRecorded(env, actor, projectId, shown, rows, front);
      assert forall k :: 0 <= k < |front| ==> front[k] == responses[k];
      match before
      case Err(e) =>
        var k :| FirstRefused(actor, shown, front, k, e);
        assert FirstRefused(actor, shown, responses, k, e);
      case Ok(done) =>
        RecordedIff(env, actor, projectId, shown, done, responses[last]);
        if AgainstResponse(actor, shown, responses[last]).Some? {
          assert FirstRefused(actor, shown, responses, last, AgainstResponse(actor, shown, responses[last]).value);
        }
    }
  }

  /** A list of responses goes through as a whole or not at all, and the first that is refused says why. */
  lemma ResponsesRefused(env: Env, t: Tables, actor: Principal, id: nat, responses: seq<Response>)
    ensures var r := Respond(env, t, actor, id, responses);
      match AgainstReview(t, actor, id) {
        case Some(e) => r == Failed(e)
        case None =>
          && (r.Done? <==>
                forall k :: 0 <= k < |responses| ==> AgainstResponse(actor, Shown(t.reviews, id), responses[k]) == None)
          && (r.Failed? ==> exists k :: FirstRefused(actor, Shown(t.reviews, id), responses, k, r.error))
      }
  {
    hide AllRecorded, FindingsOf, Answer, ComputeVerdict, Complete, StepAdded, Count, Shown, AgainstResponse;
    if AgainstReview(t, actor, id) == None {
      var row := RowOf(t.reviews, id);
      AllRecordedIff(env, actor, row.projectId, Shown(t.reviews, id), t.answers, responses);
    }
  }
}
