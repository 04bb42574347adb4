// Submits and responds, interleaved statement by statement, with and without the lock on each review's row.
module ReviewLocking {
  import opened Strings
  import opened Sorting
  import opened PatchApply
  import opened Findings
  import opened ReviewTables
  import opened ReviewProtocol
  import opened ReviewFacts
  import opened ReviewVersions
  import opened ReviewVerdicts
  import opened ReviewRuns
  import Dedup

  // --- what a statement writes ---

  /** A write of a transaction, naming the rows its statement saw. */
  datatype Write =
    | DeleteFindings(seen: set<FindingRow>)
    | InsertFindings(id: nat, findings: seq<Finding>)
    | InsertStep(step: StepRow)
    | UpdateReview(id: nat, verdict: Verdict)
    | RevokeRows(standing: set<DispositionRow>)
    | InsertAnswer(row: DispositionRow)

  function Unseen(seen: set<FindingRow>): FindingRow -> bool {
    (row: FindingRow) => row !in seen
  }

  function RevokeSeen(standing: set<DispositionRow>): DispositionRow -> DispositionRow {
    (row: DispositionRow) => if row in standing then row.(revoked := true) else row
  }

  function Apply(t: Tables, w: Write): Tables {
    match w
    case DeleteFindings(seen) => t.(reviews := t.reviews.(findings := Filter(Unseen(seen), t.reviews.findings)))
    case InsertFindings(id, findings) => t.(reviews := FindingsAdded(t.reviews, id, findings))
    case InsertStep(step) => t.(reviews := t.reviews.(steps := t.reviews.steps + [step]))
    case UpdateReview(id, verdict) => t.(reviews := Complete(t.reviews, id, verdict))
    case RevokeRows(standing) => t.(answers := Map(RevokeSeen(standing), t.answers))
    case InsertAnswer(row) => t.(answers := t.answers + [row])
  }

  /** What a transaction sees: what is committed, with its own writes on top. */
  function View(committed: Tables, pending: seq<Write>): Tables
    decreases |pending|
  {
    if pending == [] then committed else Apply(View(committed, pending[..|pending| - 1]), pending[|pending| - 1])
  }

  // --- the statements of a call ---

  datatype Statement =
    | SelectForUpdate | ReadStored | ReadShown | Decide | DeleteAgent | InsertAgent
    | Revoke(k: nat) | Record(k: nat) | ReadMax | WriteStep | WriteVerdict | WriteVerdictStep

  function Answering(n: nat): seq<Statement> {
    if n == 0 then [] else Answering(n - 1) + [Revoke(n - 1), Record(n - 1)]
  }

  predicate Writes(call: Call) {
    call.AskSubmit? || call.AskRespond?
  }

  /** The statements of a submit or a respond, in the order the code issues them. */
  function Program(call: Call): seq<Statement>
    requires Writes(call)
  {
    if call.AskSubmit? then
      [SelectForUpdate, ReadStored, Decide, DeleteAgent, InsertAgent, ReadMax, WriteStep, WriteVerdict, ReadMax,
       WriteVerdictStep]
    else
      [SelectForUpdate, ReadStored, ReadShown] + Answering(|call.responses|) + [Decide, ReadMax, WriteStep, WriteVerdict]
  }

  /** What a transaction has in hand; `saw` are the answers it ruled under. */
  datatype Local = Local(row: Option<ReviewRow>, stored: seq<Finding>, shown: seq<Finding>, judged: Judgement, max: nat,
                         fingerprint: string, error: Option<Error>, saw: seq<DispositionRow>)

  const NO_VERDICT := Verdict(false, NoBlocking, map[])
  const BLANK := Local(None, [], [], Judgement([], VerdictStep(NO_VERDICT), NO_VERDICT), 0, "", None, [])

  function StandingRows(rows: seq<DispositionRow>, projectId: nat, fingerprint: string): set<DispositionRow> {
    set row | row in rows && Stands(row, projectId, fingerprint)
  }

  function AgentRows(rows: seq<FindingRow>, id: nat): set<FindingRow> {
    set row | row in rows && IsAgentRow(row, id)
  }

  /** The checks on one response, and the fingerprint it points at. */
  function Checked(actor: Principal, shown: seq<Finding>, response: Response): Result<string, Error> {
    if Muting(response.disposition) && Strip(response.note) == "" then Err(NeedsReason(response.disposition))
    else if response.disposition.Accepted? && !actor.isLead then Err(LeadOnly)
    else Resolve(response.finding, shown)
  }

  /** One statement of a transaction that has not failed: what it then has in hand, and what it writes. */
  function Effect(call: Call, s: Statement, view: Tables, l: Local): (Local, seq<Write>)
    requires Writes(call)
  {
    match s
    case SelectForUpdate =>
      (match OwnReview(view.reviews, call.actor, call.id)
       case Err(e) => (l.(error := Some(e)), [])
       case Ok(row) => (l.(row := Some(row)), []))
    case ReadStored => (l.(stored := FindingsOf(view.reviews, call.id)), [])
    case ReadShown => (l.(shown := Shown(view.reviews, call.id)), [])
    case Decide => (l.(judged := Decision(call, view.answers, l), saw := view.answers), [])
    case DeleteAgent => (l, [DeleteFindings(AgentRows(view.reviews.findings, call.id))])
    case InsertAgent => (l, [InsertFindings(call.id, l.judged.agentFinal)])
    case Revoke(k) =>
      if !(call.AskRespond? && k < |call.responses| && l.row.Some?) then (l, [])
      else
        (match Checked(call.actor, l.shown, call.responses[k])
         case Err(e) => (l.(error := Some(e)), [])
         case Ok(fp) => (l.(fingerprint := fp), [RevokeRows(StandingRows(view.answers, l.row.value.projectId, fp))]))
    case Record(k) =>
      if !(call.AskRespond? && k < |call.responses| && l.row.Some?) then (l, [])
      else (l, [InsertAnswer(AnswerRow(call.env, call.actor, l.row.value.projectId, l.fingerprint, call.responses[k]))])
    case ReadMax => (l.(max := MaxNumber(StepsOf(view.reviews, call.id))), [])
    case WriteStep => (l, [InsertStep(StepRow(call.id, l.max + 1, l.judged.step))])
    case WriteVerdict => (l, [UpdateReview(call.id, l.judged.verdict)])
    case WriteVerdictStep => (l, [InsertStep(StepRow(call.id, l.max + 1, VerdictStep(l.judged.verdict)))])
  }

  /** The ruling a transaction makes of what it has read and the answers it sees. */
  function Decision(call: Call, answers: seq<DispositionRow>, l: Local): Judgement
    requires Writes(call)
  {
    if l.row.None? then l.judged
    else
      var projectId := l.row.value.projectId;
      var config := call.env.config(projectId);
      if call.AskSubmit? then
        Judge(call.env, answers, projectId, config, Filter(Dedup.IsDeterministic, l.stored), l.row.value.added,
              call.agent, l.row.value.status == Completed)
      else
        var final := Answer(call.env, answers, projectId, l.stored);
        Judgement([], ResponsesStep(Map(Said, call.responses), call.actor.email, Count(IsMuted, final)),
                  ComputeVerdict(final, config.policy))
  }

  /** A statement is issued only by a transaction that has not failed. */
  function Issue(call: Call, s: Statement, view: Tables, l: Local): (Local, seq<Write>)
    requires Writes(call)
  {
    if l.error.Some? then (l, []) else Effect(call, s, view, l)
  }

  // --- the database and its transactions ---

  datatype Transaction = Waiting | Open(pc: nat, hand: Local, pending: seq<Write>) | Ended(hand: Local)

  datatype System = System(committed: Tables, transactions: seq<Transaction>, order: seq<nat>)

  predicate Free(sys: System) {
    forall j :: 0 <= j < |sys.transactions| ==> !sys.transactions[j].Open?
  }

  predicate AllWrite(calls: seq<Call>) {
    forall k :: 0 <= k < |calls| ==> Writes(calls[k])
  }

  /** No transaction on review `id` is under way. */
  predicate Idle(calls: seq<Call>, sys: System, id: nat)
    requires AllWrite(calls) && |sys.transactions| == |calls|
  {
    forall j :: 0 <= j < |calls| && sys.transactions[j].Open? ==> calls[j].id != id
  }

  /** Two writes of one row: the later one waits for the end of the transaction that made the earlier one. */
  predicate Conflicts(a: Write, b: Write) {
    match a
    case DeleteFindings(seen) => b.DeleteFindings? && seen * b.seen != {}
    case UpdateReview(id, _) => b.UpdateReview? && b.id == id
    case RevokeRows(standing) => b.RevokeRows? && standing * b.standing != {}
    case _ => false
  }

  predicate Clash(writes: seq<Write>, pending: seq<Write>) {
    exists a :: a in writes && exists b :: b in pending && Conflicts(a, b)
  }

  /** Another transaction under way holds a row that `writes` of transaction `i` would write. */
  predicate Blocked(sys: System, i: nat, writes: seq<Write>) {
    exists j :: 0 <= j < |sys.transactions| && j != i && sys.transactions[j].Open? && Clash(writes, sys.transactions[j].pending)
  }

  /** Transaction `i` takes its next step. With the lock it begins by taking its review's row lock, which it holds until
      it ends, and blocks while another transaction holds it; transactions on other reviews go on. With or without, a
      statement blocks while another transaction has written a row it writes. A failed transaction leaves nothing. */
  function Step(calls: seq<Call>, locking: bool, sys: System, i: nat): System
    requires AllWrite(calls) && |sys.transactions| == |calls|
  {
    if i >= |calls| then sys
    else
      match sys.transactions[i]
      case Waiting =>
        if locking && !Idle(calls, sys, calls[i].id) then sys
        else sys.(transactions := sys.transactions[i := Open(0, BLANK, [])], order := sys.order + [i])
      case Open(pc, l, pending) =>
        if pc < |Program(calls[i])| then
          var (l', writes) := Issue(calls[i], Program(calls[i])[pc], View(sys.committed, pending), l);
          if Blocked(sys, i, writes) then sys
          else sys.(transactions := sys.transactions[i := Open(pc + 1, l', pending + writes)])
        else
          sys.(transactions := sys.transactions[i := Ended(l)],
               committed := if l.error.Some? then sys.committed else View(sys.committed, pending))
      case Ended(_) => sys
  }

  function Schedule(calls: seq<Call>, locking: bool, sys: System, steps: seq<nat>): (r: System)
    requires AllWrite(calls) && |sys.transactions| == |calls|
    ensures |r.transactions| == |calls|
    decreases |steps|
  {
    if steps == [] then sys
    else Step(calls, locking, Schedule(calls, locking, sys, steps[..|steps| - 1]), steps[|steps| - 1])
  }

  function Begin(t: Tables, n: nat): System {
    System(t, seq(n, _ => Waiting), [])
  }

  // --- a transaction left alone ---

  /** What a transaction has in hand and has written after `k` statements with nobody else about. */
  function Alone(call: Call, t: Tables, k: nat): (Local, seq<Write>)
    requires Writes(call) && k <= |Program(call)|
  {
    if k == 0 then (BLANK, [])
    else
      var (l, pending) := Alone(call, t, k - 1);
      var (l', writes) := Issue(call, Program(call)[k - 1], View(t, pending), l);
      (l', pending + writes)
  }

  /** What it has in hand and sees. */
  function Seen(call: Call, t: Tables, k: nat): (Local, Tables)
    requires Writes(call) && k <= |Program(call)|
  {
    (Alone(call, t, k).0, View(t, Alone(call, t, k).1))
  }

  lemma {:induction false} ViewConcat(t: Tables, a: seq<Write>, b: seq<Write>)
    ensures View(t, a + b) == View(View(t, a), b)
    decreases |b|
  {
    hide Apply;
    if b == [] {
      assert a + b == a;
    } else {
      assert (a + b)[..|a + b| - 1] == a + b[..|b| - 1];
      ViewConcat(t, a, b[..|b| - 1]);
    }
  }

  lemma ViewOne(t: Tables, w: Write)
    ensures View(t, [w]) == Apply(t, w)
  {
    hide Apply;
    assert [w][..0] == [];
  }

  lemma SeenNext(call: Call, t: Tables, k: nat)
    requires Writes(call) && k < |Program(call)|
    ensures var (l, view) := Seen(call, t, k);
      var (l', writes) := Issue(call, Program(call)[k], view, l);
      Seen(call, t, k + 1) == (l', View(view, writes))
  {
    hide Issue, Apply, Program;
    var (l, pending) := Alone(call, t, k);
    ViewConcat(t, pending, Issue(call, Program(call)[k], View(t, pending), l).1);
  }

  lemma SeenNone(call: Call, t: Tables)
    requires Writes(call)
    ensures Seen(call, t, 0) == (BLANK, t)
  {
  }

  lemma FilterSame<T>(p: T -> bool, q: T -> bool, s: seq<T>)
    requires forall x :: x in s ==> p(x) == q(x)
    ensures Filter(p, s) == Filter(q, s)
  {
  }

  /** The rows a delete saw are the agent's. */
  lemma DeleteIsDelete(r: Reviews, id: nat)
    ensures Filter(Unseen(AgentRows(r.findings, id)), r.findings) == Filter(NotAgentOf(id), r.findings)
  {
    FilterSame(Unseen(AgentRows(r.findings, id)), NotAgentOf(id), r.findings);
  }

  /** The rows an update saw are those that stand. */
  lemma RevokeIsRevoke(rows: seq<DispositionRow>, projectId: nat, fp: string)
    ensures Map(RevokeSeen(StandingRows(rows, projectId, fp)), rows) == Revoked(rows, projectId, {fp})
  {
    forall k | 0 <= k < |rows|
      ensures RevokeSeen(StandingRows(rows, projectId, fp))(rows[k]) == Revoking(projectId, {fp})(rows[k])
    {
      assert rows[k] in rows;
    }
  }

  lemma {:induction false} FailureSticks(call: Call, t: Tables, k: nat, n: nat)
    requires Writes(call) && k <= n <= |Program(call)|
    requires Seen(call, t, k).0.error.Some?
    ensures Seen(call, t, n) == Seen(call, t, k)
    decreases n
  {
    hide Program, Effect, Seen;
    if k < n {
      FailureSticks(call, t, k, n - 1);
      SeenNext(call, t, n - 1);
    }
  }

  /** What `Seen` is at the end, against the call. */
  predicate Does(call: Call, t: Tables, end: (Local, Tables)) {
    match call
    case AskSubmit(env, actor, id, agent) =>
      (match Submit(env, t, actor, id, agent)
       case Failed(e) => end.0.error == Some(e)
       case Done(after, _) => end.0.error.None? && end.1 == after)
    case AskRespond(env, actor, id, responses) =>
      (match Respond(env, t, actor, id, responses)
       case Failed(e) => end.0.error == Some(e)
       case Done(after, _) => end.0.error.None? && end.1 == after)
    case _ => false
  }

  /** The first two statements of either call. */
  lemma FirstReads(call: Call, t: Tables)
    requires Writes(call) && |Program(call)| > 2 && Program(call)[0] == SelectForUpdate && Program(call)[1] == ReadStored
    ensures Seen(call, t, 2).1 == t
    ensures match OwnReview(t.reviews, call.actor, call.id) {
        case Err(e) => Seen(call, t, 2).0.error == Some(e)
        case Ok(row) => Seen(call, t, 2).0 == BLANK.(row := Some(row), stored := FindingsOf(t.reviews, call.id))
      }
  {
    hide FindingsOf, Seen, OwnReview, Program, AgentRows, StandingRows, Checked, Decision, MaxNumber, StepsOf, Shown, AnswerRow;
    SeenNone(call, t);
    SeenNext(call, t, 0);
    SeenNext(call, t, 1);
  }

  lemma DecisionMade(call: Call, t: Tables, k: nat)
    requires Writes(call) && k < |Program(call)| && Program(call)[k] == Decide && Seen(call, t, k).0.error.None?
    ensures var (l, view) := Seen(call, t, k);
      Seen(call, t, k + 1) == (l.(judged := Decision(call, view.answers, l), saw := view.answers), view)
  {
    hide FindingsOf, Seen, OwnReview, Program, AgentRows, StandingRows, Checked, Decision, MaxNumber, StepsOf, Shown, AnswerRow;
    SeenNext(call, t, k);
  }

  /** The reads of a submission. */
  lemma SubmitReads(call: Call, t: Tables)
    requires call.AskSubmit?
    ensures var (l, view) := Seen(call, t, 3);
      match OwnReview(t.reviews, call.actor, call.id) {
        case Err(e) => l.error == Some(e)
        case Ok(row) => view == t && l.error.None? && l.judged
          == Judge(call.env, t.answers, row.projectId, call.env.config(row.projectId), Deterministic(t.reviews, call.id),
                   row.added, call.agent, row.status == Completed)
      }
  {
    hide Judge, FindingsOf, Filter, Seen, OwnReview;
    FirstReads(call, t);
    if OwnReview(t.reviews, call.actor, call.id).Err? {
      FailureSticks(call, t, 2, 3);
    } else {
      DecisionMade(call, t, 2);
    }
  }

  lemma OwnRow(r: Reviews, actor: Principal, id: nat)
    requires OwnReview(r, actor, id).Ok?
    ensures Exists(r, id) && OwnReview(r, actor, id).value == RowOf(r, id)
  {
  }

  /** Its writes, on what it read. */
  lemma SubmitAlone(call: Call, t: Tables)
    requires call.AskSubmit?
    ensures Does(call, t, Seen(call, t, |Program(call)|))
  {
    hide Judge, FindingsOf, Filter, FindingsAdded, MaxNumber, StepsOf, Seen, OwnReview, Complete, AgentRows;
    SubmitReads(call, t);
    var (l, view) := Seen(call, t, 3);
    if l.error.Some? {
      FailureSticks(call, t, 3, 10);
    } else {
      OwnRow(t.reviews, call.actor, call.id);
      SubmitStores(call, t);
      SubmitConcludes(call, t);
    }
  }

  lemma SubmitStores(call: Call, t: Tables)
    requires call.AskSubmit? && Seen(call, t, 3).0.error.None? && Seen(call, t, 3).1 == t
    ensures var (l, view) := Seen(call, t, 5);
      && l == Seen(call, t, 3).0
      && view == t.(reviews := AgentReplaced(t.reviews, call.id, l.judged.agentFinal))
  {
    hide Filter, Seen, FindingsOf, FindingsAdded, AgentRows;
    SeenNext(call, t, 3);
    SeenNext(call, t, 4);
    var (l, _) := Seen(call, t, 3);
    ViewOne(t, DeleteFindings(AgentRows(t.reviews.findings, call.id)));
    DeleteIsDelete(t.reviews, call.id);
    var deleted := t.(reviews := t.reviews.(findings := Filter(NotAgentOf(call.id), t.reviews.findings)));
    ViewOne(deleted, InsertFindings(call.id, l.judged.agentFinal));
  }

  /** Reading the highest number and inserting the next adds a step. */
  lemma StepWritten(call: Call, t: Tables, k: nat)
    requires Writes(call) && k + 1 < |Program(call)| && Seen(call, t, k).0.error.None?
    requires Program(call)[k] == ReadMax && (Program(call)[k + 1] == WriteStep || Program(call)[k + 1] == WriteVerdictStep)
    ensures var (l, view) := Seen(call, t, k);
      var payload := if Program(call)[k + 1] == WriteStep then l.judged.step else VerdictStep(l.judged.verdict);
      && Seen(call, t, k + 2).0 == l.(max := MaxNumber(StepsOf(view.reviews, call.id)))
      && Seen(call, t, k + 2).1 == view.(reviews := StepAdded(view.reviews, call.id, payload))
  {
    hide Seen, StepsOf, MaxNumber, Program;
    var (l, view) := Seen(call, t, k);
    var payload := if Program(call)[k + 1] == WriteStep then l.judged.step else VerdictStep(l.judged.verdict);
    SeenNext(call, t, k);
    assert Seen(call, t, k + 1) == (l.(max := MaxNumber(StepsOf(view.reviews, call.id))), view);
    SeenNext(call, t, k + 1);
    ViewOne(view, InsertStep(StepRow(call.id, MaxNumber(StepsOf(view.reviews, call.id)) + 1, payload)));
  }

  lemma VerdictWritten(call: Call, t: Tables, k: nat)
    requires Writes(call) && k < |Program(call)| && Seen(call, t, k).0.error.None? && Program(call)[k] == WriteVerdict
    ensures var (l, view) := Seen(call, t, k);
      Seen(call, t, k + 1) == (l, view.(reviews := Complete(view.reviews, call.id, l.judged.verdict)))
  {
    hide Seen, Complete, Program;
    var (l, view) := Seen(call, t, k);
    SeenNext(call, t, k);
    ViewOne(view, UpdateReview(call.id, l.judged.verdict));
  }

  lemma SubmitConcludes(call: Call, t: Tables)
    requires call.AskSubmit? && Seen(call, t, 5).0.error.None?
    ensures var (l, view) := Seen(call, t, 5);
      var (l', view') := Seen(call, t, 10);
      l'.error.None? && view' == view.(reviews := Concluded(view.reviews, call.id, l.judged.step, l.judged.verdict))
  {
    hide Seen, StepAdded, StepsOf, MaxNumber, Complete;
    StepWritten(call, t, 5);
    VerdictWritten(call, t, 7);
    StepWritten(call, t, 8);
  }

  lemma {:induction false} AnsweringAt(n: nat, k: nat)
    requires k < n
    ensures |Answering(n)| == 2 * n && Answering(n)[2 * k] == Revoke(k) && Answering(n)[2 * k + 1] == Record(k)
    decreases n
  {
    if k < n - 1 {
      AnsweringAt(n - 1, k);
    } else if n > 1 {
      AnsweringAt(n - 1, 0);
    }
  }

  lemma AnsweringLength(n: nat)
    ensures |Answering(n)| == 2 * n
  {
    if n > 0 {
      AnsweringAt(n, 0);
    }
  }

  /** Where a respond stands after its first `k` answers. */
  predicate AfterAnswers(call: Call, t: Tables, row: ReviewRow, k: nat, now: (Local, Tables))
    requires call.AskRespond? && k <= |call.responses|
  {
    var (l, view) := now;
    match AllRecorded(call.env, call.actor, row.projectId, Shown(t.reviews, call.id), t.answers, call.responses[..k])
    case Err(e) => l.error == Some(e)
    case Ok(rows) =>
      && l.error.None? && l.row == Some(row) && l.stored == FindingsOf(t.reviews, call.id)
      && l.shown == Shown(t.reviews, call.id) && view == t.(answers := rows)
  }

  lemma RespondReads(call: Call, t: Tables)
    requires call.AskRespond? && |Program(call)| >= 3
    ensures match OwnReview(t.reviews, call.actor, call.id) {
        case Err(e) => Seen(call, t, 3).0.error == Some(e)
        case Ok(row) => AfterAnswers(call, t, row, 0, Seen(call, t, 3))
      }
  {
    hide FindingsOf, Shown, Filter, Seen, OwnReview, Checked, AgentRows, StandingRows, Decision;
    FirstReads(call, t);
    if OwnReview(t.reviews, call.actor, call.id).Err? {
      FailureSticks(call, t, 2, 3);
    } else {
      SeenNext(call, t, 2);
      assert call.responses[..0] == [];
    }
  }

  lemma RecordedIsChecked(env: Env, actor: Principal, projectId: nat, shown: seq<Finding>, rows: seq<DispositionRow>,
                          response: Response)
    ensures Recorded(env, actor, projectId, shown, rows, response)
         == match Checked(actor, shown, response)
            case Err(e) => Err(e)
            case Ok(fp) => Ok(Answered(rows, AnswerRow(env, actor, projectId, fp, response)))
  {
  }

  lemma IssueRevoke(call: Call, k: nat, view: Tables, l: Local)
    requires call.AskRespond? && k < |call.responses| && l.row.Some? && l.error.None?
    ensures Issue(call, Revoke(k), view, l)
         == match Checked(call.actor, l.shown, call.responses[k])
            case Err(e) => (l.(error := Some(e)), [])
            case Ok(fp) => (l.(fingerprint := fp), [RevokeRows(StandingRows(view.answers, l.row.value.projectId, fp))])
  {
    hide AnswerRow, Checked, StandingRows, AgentRows, Decision, OwnReview, FindingsOf, Shown, MaxNumber, StepsOf;
  }

  lemma IssueRecord(call: Call, k: nat, view: Tables, l: Local)
    requires call.AskRespond? && k < |call.responses| && l.row.Some? && l.error.None?
    ensures Issue(call, Record(k), view, l)
         == (l, [InsertAnswer(AnswerRow(call.env, call.actor, l.row.value.projectId, l.fingerprint, call.responses[k]))])
  {
    hide AnswerRow, Checked, StandingRows, AgentRows, Decision, OwnReview, FindingsOf, Shown, MaxNumber, StepsOf;
  }

  /** The two statements of one answer record it, or fail. */
  lemma AnswerWritten(call: Call, t: Tables, k: nat, n: nat)
    requires call.AskRespond? && k < |call.responses| && n + 1 < |Program(call)|
    requires Program(call)[n] == Revoke(k) && Program(call)[n + 1] == Record(k)
    requires Seen(call, t, n).0.error.None? && Seen(call, t, n).0.row.Some?
    ensures var (l, view) := Seen(call, t, n);
      match Recorded(call.env, call.actor, l.row.value.projectId, l.shown, view.answers, call.responses[k]) {
        case Err(e) => Seen(call, t, n + 2).0.error == Some(e)
        case Ok(rows) => exists fp :: Seen(call, t, n + 2) == (l.(fingerprint := fp), view.(answers := rows))
      }
  {
    hide Seen, Recorded, Checked, Answered, AnswerRow, StandingRows, Issue, Program;
    var (l, view) := Seen(call, t, n);
    var projectId := l.row.value.projectId;
    RecordedIsChecked(call.env, call.actor, projectId, l.shown, view.answers, call.responses[k]);
    SeenNext(call, t, n);
    IssueRevoke(call, k, view, l);
    match Checked(call.actor, l.shown, call.responses[k])
    case Err(e) =>
      FailureSticks(call, t, n + 1, n + 2);
    case Ok(fp) =>
      ViewOne(view, RevokeRows(StandingRows(view.answers, projectId, fp)));
      RevokeIsRevoke(view.answers, projectId, fp);
      var revoked := view.(answers := Revoked(view.answers, projectId, {fp}));
      assert Seen(call, t, n + 1) == (l.(fingerprint := fp), revoked);
      SeenNext(call, t, n + 1);
      IssueRecord(call, k, revoked, l.(fingerprint := fp));
      ViewOne(revoked, InsertAnswer(AnswerRow(call.env, call.actor, projectId, fp, call.responses[k])));
      AnsweredIs(call.env, call.actor, projectId, fp, call.responses[k], view.answers);
      assert Seen(call, t, n + 2).0 == l.(fingerprint := fp);
  }

  lemma AnswerNext(call: Call, t: Tables, row: ReviewRow, k: nat)
    requires call.AskRespond? && k < |call.responses| && |Program(call)| == 2 * |call.responses| + 7
    requires AfterAnswers(call, t, row, k, Seen(call, t, 3 + 2 * k))
    ensures AfterAnswers(call, t, row, k + 1, Seen(call, t, 3 + 2 * (k + 1)))
  {
    hide FindingsOf, Shown, Seen, Recorded;
    var n := 3 + 2 * k;
    AnsweringAt(|call.responses|, k);
    assert Program(call)[n] == Revoke(k) && Program(call)[n + 1] == Record(k);
    hide Program;
    assert call.responses[..k + 1][..k] == call.responses[..k];
    if Seen(call, t, n).0.error.Some? {
      FailureSticks(call, t, n, n + 2);
    } else {
      AnswerWritten(call, t, k, n);
    }
  }

  lemma AnsweredIs(env: Env, actor: Principal, projectId: nat, fp: string, response: Response, rows: seq<DispositionRow>)
    ensures var row := AnswerRow(env, actor, projectId, fp, response);
      Answered(rows, row) == Revoked(rows, projectId, {fp}) + [row]
  {
  }

  lemma {:induction false} AnswersAll(call: Call, t: Tables, row: ReviewRow, k: nat)
    requires call.AskRespond? && k <= |call.responses| && |Program(call)| == 2 * |call.responses| + 7
    requires AfterAnswers(call, t, row, 0, Seen(call, t, 3))
    ensures AfterAnswers(call, t, row, k, Seen(call, t, 3 + 2 * k))
    decreases k
  {
    hide Seen, AfterAnswers, Program;
    if k > 0 {
      AnswersAll(call, t, row, k - 1);
      AnswerNext(call, t, row, k - 1);
    }
  }

  lemma RespondConcludes(call: Call, t: Tables, row: ReviewRow)
    requires call.AskRespond? && |Program(call)| == 2 * |call.responses| + 7
    requires OwnReview(t.reviews, call.actor, call.id) == Ok(row)
    requires AfterAnswers(call, t, row, |call.responses|, Seen(call, t, 3 + 2 * |call.responses|))
    ensures Does(call, t, Seen(call, t, |Program(call)|))
  {
    hide FindingsOf, Shown, Filter, Seen, AllRecorded, Answer, ComputeVerdict, StepAdded, StepsOf, MaxNumber, Complete,
         OwnReview, Count;
    var n := 3 + 2 * |call.responses|;
    AnsweringLength(|call.responses|);
    assert call.responses[..|call.responses|] == call.responses;
    var (l, view) := Seen(call, t, n);
    if l.error.Some? {
      FailureSticks(call, t, n, n + 4);
    } else {
      assert Program(call)[n] == Decide && Program(call)[n + 1] == ReadMax && Program(call)[n + 2] == WriteStep
          && Program(call)[n + 3] == WriteVerdict;
      DecisionMade(call, t, n);
      StepWritten(call, t, n + 1);
      VerdictWritten(call, t, n + 3);
    }
  }

  lemma RespondAlone(call: Call, t: Tables)
    requires call.AskRespond?
    ensures Does(call, t, Seen(call, t, |Program(call)|))
  {
    hide Seen, AfterAnswers, Shown, AllRecorded;
    AnsweringLength(|call.responses|);
    RespondReads(call, t);
    match OwnReview(t.reviews, call.actor, call.id)
    case Err(e) => FailureSticks(call, t, 3, |Program(call)|);
    case Ok(row) =>
      AnswersAll(call, t, row, |call.responses|);
      RespondConcludes(call, t, row);
  }

  /** Run alone, the statements of a call do what the call does: commit its tables, or fail. */
  lemma AloneIsExec(call: Call, t: Tables)
    requires Writes(call)
    ensures var (l, view) := Seen(call, t, |Program(call)|);
      Exec(t, call) == if l.error.Some? then t else view
  {
    hide Seen, Submit, Respond, Program;
    if call.AskSubmit? {
      SubmitAlone(call, t);
    } else {
      RespondAlone(call, t);
    }
  }

  // --- with the lock: any interleaving is the calls one after the other ---

  /** Submits and responds of one review. */
  predicate OneReview(calls: seq<Call>, id: nat) {
    forall k :: 0 <= k < |calls| ==> Writes(calls[k]) && calls[k].id == id
  }

  predicate Indices(order: seq<nat>, n: nat) {
    && (forall j :: 0 <= j < |order| ==> order[j] < n)
    && (forall i, j :: 0 <= i < j < |order| ==> order[i] != order[j])
  }

  /** The calls in the order they took the lock. */
  function Picked(calls: seq<Call>, order: seq<nat>): seq<Call>
    requires Indices(order, |calls|)
  {
    seq(|order|, j requires 0 <= j < |order| => calls[order[j]])
  }

  /** Those of them that have ended: all, but for the one that holds the lock. */
  function Finished(sys: System): seq<nat> {
    if Free(sys) || sys.order == [] then sys.order else sys.order[..|sys.order| - 1]
  }

  /** Who holds the lock took it last. */
  predicate HeldByLast(sys: System) {
    forall i :: 0 <= i < |sys.transactions| && sys.transactions[i].Open?
      ==> sys.order != [] && sys.order[|sys.order| - 1] == i
  }

  /** What the holder of the lock has done, it has done as if alone. */
  ghost predicate HolderAlone(calls: seq<Call>, sys: System)
    requires |sys.transactions| == |calls| && AllWrite(calls)
  {
    forall i :: 0 <= i < |calls| && sys.transactions[i].Open? ==>
      var Open(pc, l, pending) := sys.transactions[i];
      pc <= |Program(calls[i])| && (l, pending) == Alone(calls[i], sys.committed, pc)
  }

  ghost predicate Serial(calls: seq<Call>, t: Tables, sys: System) {
    && |sys.transactions| == |calls| && AllWrite(calls)
    && Indices(sys.order, |calls|)
    && (forall i :: 0 <= i < |calls| ==> (i in sys.order <==> !sys.transactions[i].Waiting?))
    && HeldByLast(sys) && HolderAlone(calls, sys)
    && Indices(Finished(sys), |calls|) && sys.committed == Run(t, Picked(calls, Finished(sys)))
  }

  lemma {:induction false} RunAppend(t: Tables, calls: seq<Call>, last: Call)
    ensures Run(t, calls + [last]) == Exec(Run(t, calls), last)
    decreases |calls|
  {
    hide Exec;
    if calls == [] {
      assert [] + [last] == [last] && [last][1..] == [];
    } else {
      assert (calls + [last])[1..] == calls[1..] + [last];
      RunAppend(Exec(t, calls[0]), calls[1..], last);
    }
  }

  lemma SerialStep(calls: seq<Call>, id: nat, t: Tables, sys: System, i: nat)
    requires OneReview(calls, id) && Serial(calls, t, sys)
    ensures Serial(calls, t, Step(calls, true, sys, i))
  {
    hide Program, Issue, View, Exec, Run, Alone;
    if i < |calls| {
      match sys.transactions[i]
      case Waiting => TakeLock(calls, id, t, sys, i);
      case Open(pc, l, pending) =>
        if pc < |Program(calls[i])| {
          Advance(calls, t, sys, i);
        } else {
          End(calls, t, sys, i);
        }
      case Ended(_) =>
    }
  }

  lemma TakeLock(calls: seq<Call>, id: nat, t: Tables, sys: System, i: nat)
    requires OneReview(calls, id) && Serial(calls, t, sys) && i < |calls| && sys.transactions[i].Waiting?
    ensures Serial(calls, t, Step(calls, true, sys, i))
  {
    hide Program, Issue, View, Exec, Run;
    if Free(sys) {
      var next := Step(calls, true, sys, i);
      assert next.transactions[i].Open?;
      assert !Free(next) && Finished(next) == sys.order == Finished(sys);
    }
  }

  /** Only the last to take the lock is under way. */
  lemma OnlyHolder(calls: seq<Call>, t: Tables, sys: System, i: nat)
    requires Serial(calls, t, sys) && i < |calls| && sys.transactions[i].Open?
    ensures sys.order != [] && sys.order[|sys.order| - 1] == i && !Free(sys)
    ensures Finished(sys) == sys.order[..|sys.order| - 1]
    ensures forall j :: 0 <= j < |calls| && j != i ==> !sys.transactions[j].Open?
  {
  }

  lemma Advance(calls: seq<Call>, t: Tables, sys: System, i: nat)
    requires Serial(calls, t, sys) && i < |calls| && sys.transactions[i].Open?
    requires sys.transactions[i].pc < |Program(calls[i])|
    ensures Serial(calls, t, Step(calls, true, sys, i))
  {
    hide Program, Issue, View, Exec, Run;
    OnlyHolder(calls, t, sys, i);
    var next := Step(calls, true, sys, i);
    assert next.transactions[i].Open?;
    assert !Free(next) && Finished(next) == Finished(sys);
  }

  lemma End(calls: seq<Call>, t: Tables, sys: System, i: nat)
    requires Serial(calls, t, sys) && i < |calls| && sys.transactions[i].Open?
    requires sys.transactions[i].pc == |Program(calls[i])|
    ensures Serial(calls, t, Step(calls, true, sys, i))
  {
    hide Program, Issue, View, Exec, Run, Alone;
    OnlyHolder(calls, t, sys, i);
    var next := Step(calls, true, sys, i);
    assert Free(next) && Finished(next) == sys.order;
    AloneIsExec(calls[i], sys.committed);
    assert next.committed == Exec(sys.committed, calls[i]);
    assert Picked(calls, sys.order) == Picked(calls, Finished(sys)) + [calls[i]];
    RunAppend(t, Picked(calls, Finished(sys)), calls[i]);
  }

  lemma {:induction false} Scheduled(calls: seq<Call>, id: nat, t: Tables, steps: seq<nat>)
    requires OneReview(calls, id)
    ensures Serial(calls, t, Schedule(calls, true, Begin(t, |calls|), steps))
    decreases |steps|
  {
    hide Serial, Step;
    if steps == [] {
      BeginSerial(calls, t);
    } else {
      Scheduled(calls, id, t, steps[..|steps| - 1]);
      SerialStep(calls, id, t, Schedule(calls, true, Begin(t, |calls|), steps[..|steps| - 1]), steps[|steps| - 1]);
    }
  }

  lemma BeginSerial(calls: seq<Call>, t: Tables)
    requires AllWrite(calls)
    ensures Serial(calls, t, Begin(t, |calls|))
  {
  }

  /** Whatever the interleaving of submits and responds of one review, each holding the review's row from before it
      reads until it ends: whenever none is under way the tables are those of the calls run whole, one after the other,
      in the order they took the lock; every call that ended is among them, once. */
  lemma LockedIsSerial(calls: seq<Call>, id: nat, t: Tables, steps: seq<nat>)
    requires OneReview(calls, id)
    ensures var sys := Schedule(calls, true, Begin(t, |calls|), steps);
      && Indices(sys.order, |calls|)
      && (forall i :: 0 <= i < |calls| && sys.transactions[i].Ended? ==> i in sys.order)
      && (Free(sys) ==> sys.committed == Run(t, Picked(calls, sys.order)))
  {
    hide Schedule, Run, Alone;
    Scheduled(calls, id, t, steps);
  }

  function AgentOf(r: Reviews, id: nat): seq<Finding> {
    Filter(IsAgent, FindingsOf(r, id))
  }

  /** The agent's half a submission to `id` stores. */
  function Stored(t: Tables, call: Call): seq<Finding>
    requires call.AskSubmit? && Exists(t.reviews, call.id)
  {
    var row := RowOf(t.reviews, call.id);
    Forgotten(Judge(call.env, t.answers, row.projectId, call.env.config(row.projectId), Deterministic(t.reviews, call.id),
                    row.added, call.agent, row.status == Completed).agentFinal)
  }

  lemma SubmitStoresOne(t: Tables, call: Call)
    requires call.AskSubmit? && Submit(call.env, t, call.actor, call.id, call.agent).Done?
    ensures Exists(t.reviews, call.id) && AgentOf(Exec(t, call).reviews, call.id) == Stored(t, call)
  {
    hide Filter, Judge, FindingsOf, Shown, AgentReplaced, Submit;
    SubmitExists(t, call);
    SubmitWrites(call.env, t, call.actor, call.id, call.agent);
    var row := RowOf(t.reviews, call.id);
    var j := Judge(call.env, t.answers, row.projectId, call.env.config(row.projectId), Deterministic(t.reviews, call.id),
                   row.added, call.agent, row.status == Completed);
    FindingsOfReplaced(t.reviews, call.id, call.id, j.agentFinal);
    SameRowsSameFindings(Exec(t, call).reviews, AgentReplaced(t.reviews, call.id, j.agentFinal), call.id);
    StoredAreDeterministic(FindingsOf(t.reviews, call.id));
    AgentHalf(Deterministic(t.reviews, call.id), Forgotten(j.agentFinal));
  }

  lemma SubmitExists(t: Tables, call: Call)
    requires call.AskSubmit? && Submit(call.env, t, call.actor, call.id, call.agent).Done?
    ensures Exists(t.reviews, call.id)
  {
    hide Judge, Concluded, AgentReplaced, Filter;
  }

  lemma AgentHalf(det: seq<Finding>, agent: seq<Finding>)
    requires AllDeterministic(det)
    requires forall k :: 0 <= k < |agent| ==> IsAgent(agent[k])
    ensures Filter(IsAgent, det + agent) == agent
  {
    FilterConcat(IsAgent, det, agent);
    FilterAll(IsAgent, det);
    FilterAll(IsAgent, agent);
    assert [] + agent == agent;
  }

  /** What the review holds of the agent after `calls` is what one of them submitted, whole, or what it held before. */
  ghost predicate HoldsOneSubmission(t: Tables, calls: seq<Call>, id: nat) {
    || AgentOf(Run(t, calls).reviews, id) == AgentOf(t.reviews, id)
    || exists k :: StoredByCall(t, calls, id, k)
  }

  /** What it holds of the agent is what call `k` stored. */
  ghost predicate StoredByCall(t: Tables, calls: seq<Call>, id: nat, k: int) {
    && 0 <= k < |calls| && calls[k].AskSubmit? && calls[k].id == id && Exists(Run(t, calls[..k]).reviews, id)
    && AgentOf(Run(t, calls).reviews, id) == Stored(Run(t, calls[..k]), calls[k])
  }

  /** However many calls there were, no two submissions are mixed. */
  lemma {:induction false} StoredAreOneSubmission(t: Tables, calls: seq<Call>, id: nat)
    requires Sound(t) && Exists(t.reviews, id)
    ensures HoldsOneSubmission(t, calls, id)
    decreases |calls|
  {
    hide Sound, Exec, Stored, FindingsOf, Ages, Filter;
    if calls != [] {
      var front, last := calls[..|calls| - 1], calls[|calls| - 1];
      assert calls == front + [last];
      RunAppend(t, front, last);
      RunKeeps(t, front);
      var before := Run(t, front);
      AgesExists(t, before, id);
      if last.AskSubmit? && last.id == id && Submit(last.env, before, last.actor, id, last.agent).Done? {
        SubmitStoresOne(before, last);
        assert StoredByCall(t, calls, id, |front|);
      } else {
        assert FindingsOf(Run(t, calls).reviews, id) == FindingsOf(before.reviews, id) by {
          StaysFound(before, last, id);
        }
        StoredAreOneSubmission(t, front, id);
        if AgentOf(before.reviews, id) != AgentOf(t.reviews, id) {
          var k :| StoredByCall(t, front, id, k);
          assert calls[..k] == front[..k] && calls[k] == front[k];
          assert StoredByCall(t, calls, id, k);
        }
      }
    }
  }

  lemma StaysFound(t: Tables, call: Call, id: nat)
    requires Sound(t) && Exists(t.reviews, id)
    requires !(call.AskSubmit? && call.id == id && Submit(call.env, t, call.actor, id, call.agent).Done?)
    ensures FindingsOf(Exec(t, call).reviews, id) == FindingsOf(t.reviews, id)
  {
    hide Sound, Submit, FindingsOf, Respond, PlanV1, CreateReview;
    if !(call.AskSubmit? && call.id == id) {
      ExecLeaves(t, call, id);
    }
  }

  /** So under the lock, whenever no call is under way, the agent findings stored are one submission's and the steps
      count 1, 2, 3, … */
  lemma LockedKeepsOne(calls: seq<Call>, t: Tables, steps: seq<nat>, id: nat)
    requires OneReview(calls, id) && Sound(t) && Exists(t.reviews, id)
    requires Free(Schedule(calls, true, Begin(t, |calls|), steps))
    ensures var sys := Schedule(calls, true, Begin(t, |calls|), steps);
      && Indices(sys.order, |calls|)
      && sys.committed == Run(t, Picked(calls, sys.order))
      && HoldsOneSubmission(t, Picked(calls, sys.order), id)
      && CountUp(StepsOf(sys.committed.reviews, id))
  {
    hide Schedule, Run, HoldsOneSubmission, Ages, SoundReviews;
    var sys := Schedule(calls, true, Begin(t, |calls|), steps);
    LockedIsSerial(calls, id, t, steps);
    var run := Picked(calls, sys.order);
    RunKeeps(t, run);
    SoundCounts(Run(t, run), id);
    StoredAreOneSubmission(t, run, id);
  }

  lemma SoundCounts(t: Tables, id: nat)
    requires Sound(t)
    ensures CountUp(StepsOf(t.reviews, id))
  {
  }
}
