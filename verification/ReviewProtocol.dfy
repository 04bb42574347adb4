// What each call of the review protocol computes, on the values of the tables.
module ReviewProtocol {
  import opened Strings
  import opened Sorting
  import opened UnifiedDiff
  import opened PatchApply
  import opened Findings
  import opened Suppression
  import opened ReviewTables
  import Dedup

  datatype Principal = Principal(userId: nat, email: string, projectId: Option<nat>, isLead: bool, viaKey: bool)

  datatype Change = Change(diff: string, files: Dict<string>, platform: string)

  datatype Config = Config(ruleset: string, policy: Policy, disabled: set<string>)

  const A_FINDING := Finding("", None, "warning", "", "", "", None, false, None, "", false)

  /** What the agent sends: the HTTP layer stamps the source and lets nothing arrive muted. */
  type AgentFinding = f: Finding | IsAgent(f) && !f.suppressed witness A_FINDING.(source := "agent")

  /** What a rule or an analyzer finds: never the agent's, and only the service says that a problem came back. */
  type ToolFinding = f: Finding | !IsAgent(f) && !f.regressed witness A_FINDING.(source := "rules")

  /** Everything the service consults that is not a row: configuration, the rules, and functions of text alone. */
  datatype Env = Env(
    config: nat -> Config,
    size: string -> nat,
    maxDiffBytes: nat,
    maxFindings: nat,
    trivial: (Config, string, seq<FileDiff>) -> Option<string>,
    tools: (Config, Change, seq<FileDiff>, Dict<set<nat>>) -> seq<ToolFinding>,
    patterns: Patterns,
    redact: Option<string> -> Option<string>,
    fingerprint: (string, string, Option<string>) -> string,
    users: nat -> string,
    today: string)

  datatype Error =
    | NotScoped | TooLarge | NoChanges | Skipped(reason: string)
    | NoSuchReview | OtherProject | OtherDeveloper
    | NeedsReason(disposition: Disposition) | LeadOnly | NoSuchNumber(n: int) | NotInReview

  // --- identity ---

  function Identified(env: Env, f: Finding): Finding {
    var quoted := env.redact(f.quotedLine);
    f.(quotedLine := quoted, fingerprint := env.fingerprint(f.ruleId, f.file, quoted))
  }

  function Identifying(env: Env): Finding -> Finding {
    (f: Finding) => Identified(env, f)
  }

  function Enabled(config: Config): Finding -> bool {
    (f: Finding) => f.ruleId !in config.disabled
  }

  function Fingerprints(findings: seq<Finding>): set<string> {
    set f | f in findings :: f.fingerprint
  }

  function Answer(env: Env, rows: seq<DispositionRow>, projectId: nat, findings: seq<Finding>): seq<Finding> {
    Applied(findings, Active(env.users, rows, projectId, Fingerprints(findings)))
  }

  // --- the deterministic half ---

  /** What a change amounts to before anything is stored. */
  datatype Examined = Examined(projectId: nat, config: Config, diffs: seq<FileDiff>, added: Dict<set<nat>>,
                               findings: seq<Finding>, dropped: nat, confirmed: set<string>, regressed: set<string>,
                               platform: string)

  /** The findings of the tools, in scope, actionable, identified and answered. */
  function Found(env: Env, config: Config, projectId: nat, change: Change, rows: seq<DispositionRow>): seq<Finding> {
    var diffs := Parse(change.diff);
    var added := AddedLines(diffs);
    var scoped := Actionable(env.patterns, change.files, ScopedAll(env.tools(config, change, diffs, added), added));
    Answer(env, rows, projectId, Map(Identifying(env), Filter(Enabled(config), scoped)))
  }

  function Regressing(regressed: set<string>): Finding -> Finding {
    (f: Finding) => if f.fingerprint in regressed then f.(regressed := true) else f
  }

  function Examine(env: Env, actor: Principal, change: Change, rows: seq<DispositionRow>): Result<Examined, Error> {
    if actor.projectId.None? then Err(NotScoped)
    else if env.size(change.diff) > env.maxDiffBytes then Err(TooLarge)
    else
      var diffs := Parse(change.diff);
      var projectId := actor.projectId.value;
      var config := env.config(projectId);
      if diffs == [] then Err(NoChanges)
      else if env.trivial(config, change.platform, diffs).Some? then
        Err(Skipped(env.trivial(config, change.platform, diffs).value))
      else
        var found := Found(env, config, projectId, change, rows);
        var claimed := Claimed(rows, projectId);
        var regressed := claimed * Fingerprints(found);
        var (kept, dropped) := Cap(Map(Regressing(regressed), found), env.maxFindings);
        Ok(Examined(projectId, config, diffs, AddedLines(diffs), kept, |dropped|, claimed - regressed, regressed,
                    change.platform))
  }

  /** The rows once the `fixed` claims are settled: a claim nothing contradicts is confirmed, the others revoked. */
  function Settled(rows: seq<DispositionRow>, projectId: nat, confirmed: set<string>, regressed: set<string>):
    seq<DispositionRow>
  {
    Revoked(Confirmed(rows, projectId, confirmed), projectId, regressed)
  }

  function PlanStepOf(e: Examined): Payload {
    PlanStep(|e.diffs|, e.config.ruleset, Count(IsActive, e.findings), Count(IsMuted, e.findings),
             |e.confirmed|, |e.regressed|, e.dropped, if e.platform == "" then "not detected" else e.platform)
  }

  predicate IsMuted(f: Finding) {
    f.suppressed
  }

  // --- the agent's half ---

  function Take<T>(s: seq<T>, n: nat): (r: seq<T>)
    ensures r <= s
  {
    if |s| <= n then s else s[..n]
  }

  function ScopedAgent(env: Env, config: Config, added: Dict<set<nat>>, agent: seq<Finding>): seq<Finding> {
    Map(Identifying(env), Filter(Enabled(config), ScopedAll(agent, added)))
  }

  /** The two halves merged and answered. */
  function Final(env: Env, rows: seq<DispositionRow>, projectId: nat, det: seq<Finding>, scoped: seq<Finding>):
    seq<Finding>
  {
    Answer(env, rows, projectId, Dedup.Merged(det, scoped))
  }

  function FindingsStepOf(submitted: nat, agentFinal: seq<Finding>, scoped: seq<Finding>, dropped: nat, resubmit: bool):
    Payload
  {
    FindingsStep(submitted, Count(IsActive, agentFinal), Count(IsMuted, scoped),
                 Count(IsMuted, agentFinal) - Count(IsMuted, scoped), dropped, resubmit)
  }

  /** What becomes of the agent's findings: the half to store, the step to record and the verdict. */
  datatype Judgement = Judgement(agentFinal: seq<Finding>, step: Payload, verdict: Verdict)

  function Judge(env: Env, rows: seq<DispositionRow>, projectId: nat, config: Config, det: seq<Finding>,
                 added: Dict<set<nat>>, agent: seq<AgentFinding>, resubmit: bool): Judgement
  {
    var taken := Take(agent, config.policy.maxAgentFindings);
    var scoped := ScopedAgent(env, config, added, taken);
    var final := Final(env, rows, projectId, det, scoped);
    var agentFinal := Filter(IsAgent, final);
    Judgement(
      agentFinal,
      FindingsStepOf(|agent|, agentFinal, scoped, |agent| - |taken|, resubmit),
      ComputeVerdict(final, config.policy))
  }

  // --- the calls ---

  datatype Tables = Tables(reviews: Reviews, answers: seq<DispositionRow>)

  datatype Outcome<+T> = Done(tables: Tables, value: T) | Failed(error: Error)

  /** What the caller hears of a call. */
  function Reply<T>(outcome: Outcome<T>): Result<T, Error> {
    match outcome
    case Done(_, value) => Ok(value)
    case Failed(e) => Err(e)
  }

  /** What its transaction leaves: all it wrote, or nothing. */
  function Committed<T>(before: Tables, outcome: Outcome<T>): Tables {
    match outcome
    case Done(after, _) => after
    case Failed(_) => before
  }

  datatype Plan = Plan(reviewId: Option<nat>, findings: seq<Finding>, suppressed: seq<Finding>, policy: Policy)

  function AsPlan(e: Examined, reviewId: Option<nat>): Plan {
    Plan(reviewId, Filter(IsActive, e.findings), Filter(IsMuted, e.findings), e.config.policy)
  }

  function PlanOnly(env: Env, t: Tables, actor: Principal, change: Change): Outcome<Plan> {
    match Examine(env, actor, change, t.answers)
    case Err(e) => Failed(e)
    case Ok(x) => Done(t, AsPlan(x, None))
  }

  function SettledTables(t: Tables, x: Examined): Tables {
    t.(answers := Settled(t.answers, x.projectId, x.confirmed, x.regressed))
  }

  function Opened(r: Reviews, actor: Principal, x: Examined): Reviews {
    Created(r, x.projectId, actor.userId, x.added, |x.diffs|)
  }

  function PlanV1(env: Env, t: Tables, actor: Principal, change: Change): Outcome<Plan> {
    match Examine(env, actor, change, t.answers)
    case Err(e) => Failed(e)
    case Ok(x) =>
      var id := |t.reviews.reviews| + 1;
      var r := FindingsAdded(Opened(t.reviews, actor, x), id, x.findings);
      Done(SettledTables(t, x).(reviews := StepAdded(r, id, PlanStepOf(x))), AsPlan(x, Some(id)))
  }

  /** The review a credential may act on, or why it may not. */
  function OwnReview(r: Reviews, actor: Principal, id: nat): Result<ReviewRow, Error> {
    if !Exists(r, id) then Err(NoSuchReview)
    else if Some(RowOf(r, id).projectId) != actor.projectId then Err(OtherProject)
    else if actor.viaKey && RowOf(r, id).userId != actor.userId then Err(OtherDeveloper)
    else Ok(RowOf(r, id))
  }

  function Shown(r: Reviews, id: nat): seq<Finding> {
    Filter(IsActive, FindingsOf(r, id))
  }

  /** The last three rows of a submission: what became of the findings, and the verdict. */
  function Concluded(r: Reviews, id: nat, step: Payload, verdict: Verdict): Reviews {
    StepAdded(Complete(StepAdded(r, id, step), id, verdict), id, VerdictStep(verdict))
  }

  datatype Ruling = Ruling(verdict: Verdict, shown: seq<Finding>)

  function Submit(env: Env, t: Tables, actor: Principal, id: nat, agent: seq<AgentFinding>): Outcome<Ruling> {
    match OwnReview(t.reviews, actor, id)
    case Err(e) => Failed(e)
    case Ok(row) =>
      var det := Filter(Dedup.IsDeterministic, FindingsOf(t.reviews, id));
      var j := Judge(env, t.answers, row.projectId, env.config(row.projectId), det, AddedOfReview(t.reviews, id), agent,
                     row.status == Completed);
      var r := Concluded(AgentReplaced(t.reviews, id, j.agentFinal), id, j.step, j.verdict);
      Done(t.(reviews := r), Ruling(j.verdict, Shown(r, id)))
  }

  function CreateReview(env: Env, t: Tables, actor: Principal, change: Change, agent: seq<AgentFinding>):
    Outcome<(nat, Ruling)>
  {
    match Examine(env, actor, change, t.answers)
    case Err(e) => Failed(e)
    case Ok(x) =>
      var after := SettledTables(t, x);
      var j := Judge(env, after.answers, x.projectId, x.config, x.findings, x.added, agent, false);
      var id := |t.reviews.reviews| + 1;
      var stored := FindingsAdded(FindingsAdded(Opened(t.reviews, actor, x), id, x.findings), id, j.agentFinal);
      var r := Concluded(StepAdded(stored, id, PlanStepOf(x)), id, j.step, j.verdict);
      Done(after.(reviews := r), (id, Ruling(j.verdict, Shown(r, id))))
  }

  // --- respond ---

  /** What the developer points at: a number, or a fingerprint. */
  datatype Reference = Number(n: int) | Id(fingerprint: string)

  datatype Response = Response(finding: Reference, disposition: Disposition, note: string)

  function Resolve(finding: Reference, shown: seq<Finding>): Result<string, Error> {
    match finding
    case Number(n) => if 1 <= n <= |shown| then Ok(shown[n - 1].fingerprint) else Err(NoSuchNumber(n))
    case Id(fp) => if fp in Fingerprints(shown) then Ok(fp) else Err(NotInReview)
  }

  function AnswerRow(env: Env, actor: Principal, projectId: nat, fp: string, response: Response): DispositionRow {
    DispositionRow(projectId, fp, response.disposition, Strip(response.note), actor.userId, env.today, false)
  }

  /** One response: refused, or the rows with it recorded. */
  function Recorded(env: Env, actor: Principal, projectId: nat, shown: seq<Finding>, rows: seq<DispositionRow>,
                    response: Response): Result<seq<DispositionRow>, Error>
  {
    if Muting(response.disposition) && Strip(response.note) == "" then Err(NeedsReason(response.disposition))
    else if response.disposition.Accepted? && !actor.isLead then Err(LeadOnly)
    else
      match Resolve(response.finding, shown)
      case Err(e) => Err(e)
      case Ok(fp) => Ok(Answered(rows, AnswerRow(env, actor, projectId, fp, response)))
  }

  function AllRecorded(env: Env, actor: Principal, projectId: nat, shown: seq<Finding>, rows: seq<DispositionRow>,
                       responses: seq<Response>): Result<seq<DispositionRow>, Error>
    decreases |responses|
  {
    if responses == [] then Ok(rows)
    else
      match AllRecorded(env, actor, projectId, shown, rows, responses[..|responses| - 1])
      case Err(e) => Err(e)
      case Ok(before) => Recorded(env, actor, projectId, shown, before, responses[|responses| - 1])
  }

  function Said(response: Response): (Disposition, string) {
    (response.disposition, Strip(response.note))
  }

  function Respond(env: Env, t: Tables, actor: Principal, id: nat, responses: seq<Response>): Outcome<Verdict> {
    match OwnReview(t.reviews, actor, id)
    case Err(e) => Failed(e)
    case Ok(row) =>
      match AllRecorded(env, actor, row.projectId, Shown(t.reviews, id), t.answers, responses)
      case Err(e) => Failed(e)
      case Ok(rows) =>
        var final := Answer(env, rows, row.projectId, FindingsOf(t.reviews, id));
        var verdict := ComputeVerdict(final, env.config(row.projectId).policy);
        var step := ResponsesStep(Map(Said, responses), actor.email, Count(IsMuted, final));
        Done(Tables(Complete(StepAdded(t.reviews, id, step), id, verdict), rows), verdict)
  }
}
