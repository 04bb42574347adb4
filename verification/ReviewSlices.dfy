// What the row lock guarantees for each review while calls on other reviews go on: what belongs to one review is what the
// calls on it leave one after the other, in the order they took its lock, each ruling under the answers it saw.
module ReviewSlices {
  // Transactions on different reviews interleave freely, share the table of answers and see each other's answers as they
  // are committed.

  import opened Strings
  import opened Sorting
  import opened Findings
  import opened ReviewTables
  import opened ReviewProtocol
  import opened ReviewFacts
  import opened ReviewVerdicts
  import opened ReviewRuns
  import opened ReviewLocking
  import Dedup

  // --- what belongs to one review ---

  datatype Slice = Slice(row: Option<ReviewRow>, findings: seq<FindingRow>, steps: seq<StepRow>)

  function SliceOf(r: Reviews, id: nat): Slice {
    Slice(if Exists(r, id) then Some(RowOf(r, id)) else None, Filter(OfReview(id), r.findings), StepsOf(r, id))
  }

  /** Whether a write touches nothing of any other review. */
  predicate OwnWrite(w: Write, id: nat) {
    match w
    case DeleteFindings(seen) => forall row :: row in seen ==> row.reviewId == id
    case InsertFindings(i, _) => i == id
    case InsertStep(step) => step.reviewId == id
    case UpdateReview(i, _) => i == id
    case _ => true
  }

  lemma {:induction false} FilterSwaps<T>(p: T -> bool, q: T -> bool, s: seq<T>)
    ensures Filter(p, Filter(q, s)) == Filter(q, Filter(p, s))
  {
    if s != [] {
      FilterSwaps(p, q, s[1..]);
      FilterCons(p, s[0], Filter(q, s[1..]));
      FilterCons(q, s[0], Filter(p, s[1..]));
    }
  }

  lemma FilterCons<T>(p: T -> bool, x: T, s: seq<T>)
    ensures Filter(p, [x] + s) == if p(x) then [x] + Filter(p, s) else Filter(p, s)
  {
    assert ([x] + s)[1..] == s;
  }

  /** What a write does to a slice depends on nothing but the slice. */
  lemma ApplySame(t: Tables, u: Tables, w: Write, id: nat)
    requires SliceOf(t.reviews, id) == SliceOf(u.reviews, id)
    ensures SliceOf(Apply(t, w).reviews, id) == SliceOf(Apply(u, w).reviews, id)
  {
    hide Filter;
    match w
    case DeleteFindings(seen) =>
      FilterSwaps(OfReview(id), Unseen(seen), t.reviews.findings);
      FilterSwaps(OfReview(id), Unseen(seen), u.reviews.findings);
    case InsertFindings(i, batch) =>
      FilterConcat(OfReview(id), t.reviews.findings, Map(ToRow(i), batch));
      FilterConcat(OfReview(id), u.reviews.findings, Map(ToRow(i), batch));
    case InsertStep(step) => StepsSame(t.reviews, u.reviews, step, id);
    case _ =>
  }

  lemma StepsSame(r: Reviews, q: Reviews, step: StepRow, id: nat)
    requires StepsOf(r, id) == StepsOf(q, id)
    ensures StepsOf(r.(steps := r.steps + [step]), id) == StepsOf(q.(steps := q.steps + [step]), id)
  {
    FilterConcat(StepOf(id), r.steps, [step]);
    FilterConcat(StepOf(id), q.steps, [step]);
  }

  /** A write of one review leaves the others' slices alone. */
  lemma ApplyOther(t: Tables, w: Write, id: nat, other: nat)
    requires OwnWrite(w, id) && other != id
    ensures SliceOf(Apply(t, w).reviews, other) == SliceOf(t.reviews, other)
  {
    hide Filter;
    match w
    case DeleteFindings(seen) =>
      FilterTwice(Unseen(seen), OfReview(other), OfReview(other), t.reviews.findings);
    case InsertFindings(i, batch) =>
      FilterConcat(OfReview(other), t.reviews.findings, Map(ToRow(i), batch));
      FilterAll(OfReview(other), Map(ToRow(i), batch));
      assert Filter(OfReview(other), t.reviews.findings) + [] == Filter(OfReview(other), t.reviews.findings);
    case InsertStep(step) =>
      FilterConcat(StepOf(other), t.reviews.steps, [step]);
      FilterAll(StepOf(other), [step]);
      assert Filter(StepOf(other), t.reviews.steps) + [] == Filter(StepOf(other), t.reviews.steps);
    case _ =>
  }

  lemma {:induction false} ViewSame(t: Tables, u: Tables, pending: seq<Write>, id: nat)
    requires SliceOf(t.reviews, id) == SliceOf(u.reviews, id)
    ensures SliceOf(View(t, pending).reviews, id) == SliceOf(View(u, pending).reviews, id)
    decreases |pending|
  {
    hide SliceOf, Apply;
    if pending != [] {
      var front := pending[..|pending| - 1];
      ViewSame(t, u, front, id);
      ApplySame(View(t, front), View(u, front), pending[|pending| - 1], id);
    }
  }

  lemma {:induction false} ViewOther(t: Tables, pending: seq<Write>, id: nat, other: nat)
    requires other != id && forall w :: w in pending ==> OwnWrite(w, id)
    ensures SliceOf(View(t, pending).reviews, other) == SliceOf(t.reviews, other)
    decreases |pending|
  {
    hide SliceOf, Apply, OwnWrite;
    if pending != [] {
      var front := pending[..|pending| - 1];
      assert forall w :: w in front ==> w in pending;
      ViewOther(t, front, id, other);
      ApplyOther(View(t, front), pending[|pending| - 1], id, other);
    }
  }

  // --- what a statement reads and writes ---

  lemma SameReads(r: Reviews, q: Reviews, actor: Principal, id: nat)
    requires SliceOf(r, id) == SliceOf(q, id)
    ensures OwnReview(r, actor, id) == OwnReview(q, actor, id)
    ensures FindingsOf(r, id) == FindingsOf(q, id) && Shown(r, id) == Shown(q, id) && StepsOf(r, id) == StepsOf(q, id)
    ensures AgentRows(r.findings, id) == AgentRows(q.findings, id)
  {
    hide Filter;
    AgentRowsAre(r.findings, id);
    AgentRowsAre(q.findings, id);
  }

  lemma AgentRowsAre(rows: seq<FindingRow>, id: nat)
    ensures AgentRows(rows, id) == AgentRows(Filter(OfReview(id), rows), id)
  {
    FilterMembers(OfReview(id), rows);
  }

  lemma IssueOwn(call: Call, s: Statement, view: Tables, l: Local)
    requires Writes(call)
    ensures forall w :: w in Issue(call, s, view, l).1 ==> OwnWrite(w, call.id)
  {
    hide OwnReview, FindingsOf, Shown, Decision, Checked, StandingRows, AnswerRow, MaxNumber, StepsOf;
  }

  /** A statement that rules on nothing does the same under any answers; one that does, under the same answers. */
  lemma IssueSame(call: Call, s: Statement, v: Tables, u: Tables, l: Local)
    requires Writes(call) && SliceOf(v.reviews, call.id) == SliceOf(u.reviews, call.id)
    requires s.Decide? ==> v.answers == u.answers
    ensures Issue(call, s, v, l).0 == Issue(call, s, u, l).0
    ensures SliceOf(View(v, Issue(call, s, v, l).1).reviews, call.id)
         == SliceOf(View(u, Issue(call, s, u, l).1).reviews, call.id)
  {
    hide SliceOf, OwnReview, FindingsOf, Shown, Decision, Checked, StandingRows, AnswerRow, MaxNumber, StepsOf, View,
         AgentRows;
    SameReads(v.reviews, u.reviews, call.actor, call.id);
    var a, b := Issue(call, s, v, l).1, Issue(call, s, u, l).1;
    if a == b {
      ViewSame(v, u, a, call.id);
    } else {
      assert s.Revoke? && |a| == |b| == 1 && a[0].RevokeRows? && b[0].RevokeRows?;
      assert a == [a[0]] && b == [b[0]];
      ViewOne(v, a[0]);
      ViewOne(u, b[0]);
    }
  }

  // --- a transaction on its review alone ---

  /** What a transaction has in hand, and the reviews as it sees them, after `k` statements on the reviews `r` with
      nobody else about and the answers fixed at `saw`. */
  function Frozen(call: Call, r: Reviews, saw: seq<DispositionRow>, k: nat): (Local, Reviews)
    requires Writes(call) && k <= |Program(call)|
  {
    if k == 0 then (BLANK, r)
    else
      var (l, q) := Frozen(call, r, saw, k - 1);
      var (l', writes) := Issue(call, Program(call)[k - 1], Tables(q, saw), l);
      (l', View(Tables(q, saw), writes).reviews)
  }

  /** It depends on nothing but the slice of its review. */
  lemma {:induction false} FrozenSame(call: Call, r: Reviews, q: Reviews, saw: seq<DispositionRow>, k: nat)
    requires Writes(call) && k <= |Program(call)| && SliceOf(r, call.id) == SliceOf(q, call.id)
    ensures Frozen(call, r, saw, k).0 == Frozen(call, q, saw, k).0
    ensures SliceOf(Frozen(call, r, saw, k).1, call.id) == SliceOf(Frozen(call, q, saw, k).1, call.id)
    decreases k
  {
    hide SliceOf, Issue, View, Program;
    if k > 0 {
      FrozenSame(call, r, q, saw, k - 1);
      IssueSame(call, Program(call)[k - 1], Tables(Frozen(call, r, saw, k - 1).1, saw),
                Tables(Frozen(call, q, saw, k - 1).1, saw), Frozen(call, r, saw, k - 1).0);
    }
  }

  /** Before it rules the answers do not matter. */
  lemma {:induction false} FrozenEarly(call: Call, r: Reviews, saw: seq<DispositionRow>, seen: seq<DispositionRow>, k: nat)
    requires Writes(call) && k <= |Program(call)| && forall j :: 0 <= j < k ==> !Program(call)[j].Decide?
    ensures Frozen(call, r, saw, k).0 == Frozen(call, r, seen, k).0
    ensures SliceOf(Frozen(call, r, saw, k).1, call.id) == SliceOf(Frozen(call, r, seen, k).1, call.id)
    decreases k
  {
    hide SliceOf, Issue, View, Program;
    if k > 0 {
      FrozenEarly(call, r, saw, seen, k - 1);
      IssueSame(call, Program(call)[k - 1], Tables(Frozen(call, r, saw, k - 1).1, saw),
                Tables(Frozen(call, r, seen, k - 1).1, seen), Frozen(call, r, saw, k - 1).0);
    }
  }

  lemma {:induction false} AnsweringDecidesNot(n: nat)
    ensures forall s :: s in Answering(n) ==> !s.Decide?
  {
    if n > 0 {
      AnsweringDecidesNot(n - 1);
    }
  }

  /** A call rules once. */
  lemma RulesOnce(call: Call, k: nat)
    requires Writes(call) && k < |Program(call)| && Program(call)[k].Decide?
    ensures forall j :: 0 <= j < k ==> !Program(call)[j].Decide?
  {
    if call.AskRespond? {
      AnsweringDecidesNot(|call.responses|);
    }
  }

  /** What a transaction under way has done on its own review, it has done as if alone, under the answers it saw. */
  ghost predicate Follows(call: Call, committed: Tables, pc: nat, l: Local, pending: seq<Write>)
    requires Writes(call)
  {
    && pc <= |Program(call)|
    && Frozen(call, committed.reviews, l.saw, pc).0 == l
    && SliceOf(Frozen(call, committed.reviews, l.saw, pc).1, call.id) == SliceOf(View(committed, pending).reviews, call.id)
    && forall w :: w in pending ==> OwnWrite(w, call.id)
  }

  lemma SawKept(call: Call, s: Statement, view: Tables, l: Local)
    requires Writes(call)
    ensures Issue(call, s, view, l).0.saw == if s.Decide? && l.error.None? then view.answers else l.saw
  {
    hide OwnReview, FindingsOf, Shown, Decision, Checked, StandingRows, AnswerRow, MaxNumber, StepsOf, AgentRows;
  }

  lemma FollowsNext(call: Call, committed: Tables, pc: nat, l: Local, pending: seq<Write>)
    requires Writes(call) && Follows(call, committed, pc, l, pending) && pc < |Program(call)|
    ensures var (l', writes) := Issue(call, Program(call)[pc], View(committed, pending), l);
      Follows(call, committed, pc + 1, l', pending + writes)
  {
    hide SliceOf, Issue, View, Program, OwnWrite;
    var s, view := Program(call)[pc], View(committed, pending);
    var (l', writes) := Issue(call, s, view, l);
    SawKept(call, s, view, l);
    IssueOwn(call, s, view, l);
    ViewConcat(committed, pending, writes);
    if s.Decide? && l.error.None? {
      RulesOnce(call, pc);
      FrozenEarly(call, committed.reviews, l.saw, l'.saw, pc);
    }
    var (_, q) := Frozen(call, committed.reviews, l'.saw, pc);
    if s.Decide? && l.error.Some? {
      FailedIssue(call, s, view, l);
      FailedIssue(call, s, Tables(q, l.saw), l);
      ViewSame(Tables(q, l.saw), view, [], call.id);
    } else {
      IssueSame(call, s, Tables(q, l'.saw), view, l);
    }
  }

  lemma FailedIssue(call: Call, s: Statement, view: Tables, l: Local)
    requires Writes(call) && l.error.Some?
    ensures Issue(call, s, view, l) == (l, [])
  {
  }

  /** What others commit to their reviews changes nothing for it. */
  lemma FollowsStill(call: Call, committed: Tables, after: Tables, pc: nat, l: Local, pending: seq<Write>)
    requires Writes(call) && Follows(call, committed, pc, l, pending)
    requires SliceOf(after.reviews, call.id) == SliceOf(committed.reviews, call.id)
    ensures Follows(call, after, pc, l, pending)
  {
    hide SliceOf, View, Program, OwnWrite, Frozen;
    FrozenSame(call, committed.reviews, after.reviews, l.saw, pc);
    ViewSame(committed, after, pending, call.id);
  }

  // --- what a call does to its review ---

  /** What a call makes of the reviews when it rules under the answers `saw`. */
  function OnReview(call: Call, r: Reviews, saw: seq<DispositionRow>): Reviews
    requires Writes(call)
  {
    if call.AskSubmit? then Exec(Tables(r, saw), call).reviews
    else
      match OwnReview(r, call.actor, call.id)
      case Err(_) => r
      case Ok(row) =>
        if AllRecorded(call.env, call.actor, row.projectId, Shown(r, call.id), saw, call.responses).Err? then r
        else
          var final := Answer(call.env, saw, row.projectId, FindingsOf(r, call.id));
          var step := ResponsesStep(Map(Said, call.responses), call.actor.email, Count(IsMuted, final));
          Complete(StepAdded(r, call.id, step), call.id, ComputeVerdict(final, call.env.config(row.projectId).policy))
  }

  lemma {:induction false} RefusedAnyway(env: Env, actor: Principal, projectId: nat, shown: seq<Finding>,
                                         rows: seq<DispositionRow>, other: seq<DispositionRow>, responses: seq<Response>)
    ensures AllRecorded(env, actor, projectId, shown, rows, responses).Err?
        <==> AllRecorded(env, actor, projectId, shown, other, responses).Err?
    decreases |responses|
  {
    hide Answered, AnswerRow, Resolve;
    if responses != [] {
      RefusedAnyway(env, actor, projectId, shown, rows, other, responses[..|responses| - 1]);
    }
  }

  /** A call run whole does to the reviews what it does under the answers it leaves. */
  lemma ExecOnReview(t: Tables, call: Call)
    requires Writes(call)
    ensures Exec(t, call).reviews == OnReview(call, t.reviews, Exec(t, call).answers)
  {
    hide Judge, Concluded, AgentReplaced, FindingsOf, Shown, OwnReview, AllRecorded, Answer, ComputeVerdict, Complete,
         StepAdded;
    if call.AskRespond? {
      match OwnReview(t.reviews, call.actor, call.id)
      case Err(_) =>
      case Ok(row) =>
        RefusedAnyway(call.env, call.actor, row.projectId, Shown(t.reviews, call.id), t.answers, Exec(t, call).answers,
                      call.responses);
    }
  }

  // --- its statements do that ---

  predicate OfAnswers(w: Write) {
    w.RevokeRows? || w.InsertAnswer?
  }

  lemma {:induction false} ViewKeeps(t: Tables, pending: seq<Write>)
    ensures (forall w :: w in pending ==> OfAnswers(w)) ==> View(t, pending).reviews == t.reviews
    ensures (forall w :: w in pending ==> !OfAnswers(w)) ==> View(t, pending).answers == t.answers
    decreases |pending|
  {
    if pending != [] {
      assert forall w :: w in pending[..|pending| - 1] ==> w in pending;
      assert pending[|pending| - 1] in pending;
      ViewKeeps(t, pending[..|pending| - 1]);
    }
  }

  predicate OnAnswers(s: Statement) {
    s.Revoke? || s.Record?
  }

  predicate ReadsOnly(s: Statement) {
    s.SelectForUpdate? || s.ReadStored? || s.ReadShown? || s.ReadMax? || s.Decide?
  }

  lemma IssueWrites(call: Call, s: Statement, view: Tables, l: Local)
    requires Writes(call)
    ensures ReadsOnly(s) ==> Issue(call, s, view, l).1 == []
    ensures forall w :: w in Issue(call, s, view, l).1 ==> (OfAnswers(w) <==> OnAnswers(s))
  {
    hide OwnReview, FindingsOf, Shown, Decision, Checked, StandingRows, AnswerRow, MaxNumber, StepsOf, AgentRows;
  }

  /** A submission writes no answer, so alone it does the same whether they are fixed or not. */
  lemma {:induction false} FrozenSubmit(call: Call, r: Reviews, saw: seq<DispositionRow>, k: nat)
    requires call.AskSubmit? && k <= |Program(call)|
    ensures var (l, q) := Frozen(call, r, saw, k); Seen(call, Tables(r, saw), k) == (l, Tables(q, saw))
    decreases k
  {
    hide Issue, View, Seen;
    if k == 0 {
      SeenNone(call, Tables(r, saw));
    } else {
      var (l, q) := Frozen(call, r, saw, k - 1);
      var writes := Issue(call, Program(call)[k - 1], Tables(q, saw), l).1;
      FrozenSubmit(call, r, saw, k - 1);
      SeenNext(call, Tables(r, saw), k - 1);
      IssueWrites(call, Program(call)[k - 1], Tables(q, saw), l);
      ViewKeeps(Tables(q, saw), writes);
    }
  }

  predicate Early(s: Statement) {
    OnAnswers(s) || (ReadsOnly(s) && !s.Decide?)
  }

  /** Until it rules a respond writes no review, and has in hand the same whether the answers are fixed or not. */
  lemma {:induction false} FrozenRespond(call: Call, r: Reviews, saw: seq<DispositionRow>, k: nat)
    requires Writes(call) && k <= |Program(call)| && forall j :: 0 <= j < k ==> Early(Program(call)[j])
    ensures Frozen(call, r, saw, k) == (Seen(call, Tables(r, saw), k).0, r) && Seen(call, Tables(r, saw), k).1.reviews == r
    decreases k
  {
    hide Issue, View, Seen, Program, SliceOf;
    var t := Tables(r, saw);
    if k == 0 {
      SeenNone(call, t);
    } else {
      FrozenRespond(call, r, saw, k - 1);
      var s := Program(call)[k - 1];
      var (l, view) := Seen(call, t, k - 1);
      SeenNext(call, t, k - 1);
      IssueSame(call, s, t, view, l);
      IssueWrites(call, s, t, l);
      IssueWrites(call, s, view, l);
      ViewKeeps(t, Issue(call, s, t, l).1);
      ViewKeeps(view, Issue(call, s, view, l).1);
    }
  }

  lemma {:induction false} AnsweringIsEarly(n: nat)
    ensures forall s :: s in Answering(n) ==> Early(s)
  {
    if n > 0 {
      AnsweringIsEarly(n - 1);
    }
  }

  lemma RespondProgram(call: Call)
    requires call.AskRespond?
    ensures var n := 3 + 2 * |call.responses|;
      && |Program(call)| == n + 4 && (forall j :: 0 <= j < n ==> Early(Program(call)[j]))
      && Program(call)[n] == Decide && Program(call)[n + 1] == ReadMax && Program(call)[n + 2] == WriteStep
      && Program(call)[n + 3] == WriteVerdict
  {
    AnsweringLength(|call.responses|);
    AnsweringIsEarly(|call.responses|);
  }

  lemma FrozenNext(call: Call, r: Reviews, saw: seq<DispositionRow>, k: nat)
    requires Writes(call) && k < |Program(call)|
    ensures var (l, q) := Frozen(call, r, saw, k);
      var (l', writes) := Issue(call, Program(call)[k], Tables(q, saw), l);
      Frozen(call, r, saw, k + 1) == (l', View(Tables(q, saw), writes).reviews)
  {
    hide Issue, View, Program;
  }

  lemma {:induction false} FrozenFails(call: Call, r: Reviews, saw: seq<DispositionRow>, k: nat, n: nat)
    requires Writes(call) && k <= n <= |Program(call)| && Frozen(call, r, saw, k).0.error.Some?
    ensures Frozen(call, r, saw, n).0.error.Some?
    decreases n
  {
    hide Issue, View, Program;
    if k < n {
      FrozenFails(call, r, saw, k, n - 1);
      var (l, q) := Frozen(call, r, saw, n - 1);
      FailedIssue(call, Program(call)[n - 1], Tables(q, saw), l);
    }
  }

  /** The last four statements of a respond. */
  lemma RespondRules(call: Call, r: Reviews, saw: seq<DispositionRow>, n: nat, l: Local)
    requires call.AskRespond? && |Program(call)| == n + 4 && Frozen(call, r, saw, n) == (l, r)
    requires Program(call)[n] == Decide && Program(call)[n + 1] == ReadMax && Program(call)[n + 2] == WriteStep
    requires Program(call)[n + 3] == WriteVerdict && l.error.None?
    ensures var (l', q) := Frozen(call, r, saw, n + 4);
      var j := Decision(call, saw, l);
      l'.error.None? && q == Complete(StepAdded(r, call.id, j.step), call.id, j.verdict)
  {
    hide Program, Frozen, Decision, StepsOf, MaxNumber, Complete, View;
    var j := Decision(call, saw, l);
    var ruled := l.(judged := j, saw := saw);
    var counted := ruled.(max := MaxNumber(StepsOf(r, call.id)));
    var step := InsertStep(StepRow(call.id, counted.max + 1, j.step));
    FrozenNext(call, r, saw, n);
    ViewKeeps(Tables(r, saw), []);
    assert Frozen(call, r, saw, n + 1) == (ruled, r);
    FrozenNext(call, r, saw, n + 1);
    assert Frozen(call, r, saw, n + 2) == (counted, r);
    FrozenNext(call, r, saw, n + 2);
    ViewOne(Tables(r, saw), step);
    var q := StepAdded(r, call.id, j.step);
    assert Frozen(call, r, saw, n + 3) == (counted, q);
    FrozenNext(call, r, saw, n + 3);
    ViewOne(Tables(q, saw), UpdateReview(call.id, j.verdict));
  }

  lemma RespondEnds(call: Call, r: Reviews, saw: seq<DispositionRow>)
    requires call.AskRespond?
    ensures var (l, q) := Frozen(call, r, saw, |Program(call)|);
      OnReview(call, r, saw) == if l.error.Some? then r else q
  {
    hide Program, Frozen, Seen, AfterAnswers, FindingsOf, Shown, AllRecorded, OwnReview, Answer, ComputeVerdict, StepAdded,
         Complete;
    var t, n := Tables(r, saw), 3 + 2 * |call.responses|;
    RespondProgram(call);
    FrozenRespond(call, r, saw, n);
    RespondReads(call, t);
    match OwnReview(r, call.actor, call.id)
    case Err(_) =>
      FailureSticks(call, t, 3, n);
      FrozenFails(call, r, saw, n, n + 4);
    case Ok(row) =>
      AnswersAll(call, t, row, |call.responses|);
      RespondEndsOwn(call, r, saw, row, n);
  }

  lemma RespondEndsOwn(call: Call, r: Reviews, saw: seq<DispositionRow>, row: ReviewRow, n: nat)
    requires call.AskRespond? && n == 3 + 2 * |call.responses| && |Program(call)| == n + 4
    requires Program(call)[n] == Decide && Program(call)[n + 1] == ReadMax && Program(call)[n + 2] == WriteStep
    requires Program(call)[n + 3] == WriteVerdict
    requires OwnReview(r, call.actor, call.id) == Ok(row)
    requires Frozen(call, r, saw, n) == (Seen(call, Tables(r, saw), n).0, r)
    requires AfterAnswers(call, Tables(r, saw), row, |call.responses|, Seen(call, Tables(r, saw), n))
    ensures var (l, q) := Frozen(call, r, saw, |Program(call)|);
      OnReview(call, r, saw) == if l.error.Some? then r else q
  {
    hide Program, Frozen, Seen, FindingsOf, Shown, AllRecorded, OwnReview, Answer, ComputeVerdict, StepAdded, Complete, Count;
    assert call.responses[..|call.responses|] == call.responses;
    var l := Seen(call, Tables(r, saw), n).0;
    if l.error.Some? {
      FrozenFails(call, r, saw, n, n + 4);
    } else {
      RespondRules(call, r, saw, n, l);
    }
  }

  /** Run to its end on the review alone, a transaction leaves what the call does to it. */
  lemma FrozenEnds(call: Call, r: Reviews, saw: seq<DispositionRow>)
    requires Writes(call)
    ensures var (l, q) := Frozen(call, r, saw, |Program(call)|);
      OnReview(call, r, saw) == if l.error.Some? then r else q
  {
    hide Program, Frozen, Seen, Submit, OnReview;
    if call.AskSubmit? {
      FrozenSubmit(call, r, saw, |Program(call)|);
      SubmitAlone(call, Tables(r, saw));
      SubmitOnReview(call, r, saw);
    } else {
      RespondEnds(call, r, saw);
    }
  }

  lemma SubmitOnReview(call: Call, r: Reviews, saw: seq<DispositionRow>)
    requires call.AskSubmit?
    ensures OnReview(call, r, saw)
         == Committed(Tables(r, saw), Submit(call.env, Tables(r, saw), call.actor, call.id, call.agent)).reviews
  {
    hide Submit;
  }

  lemma OnReviewSame(call: Call, r: Reviews, q: Reviews, saw: seq<DispositionRow>)
    requires Writes(call) && SliceOf(r, call.id) == SliceOf(q, call.id)
    ensures SliceOf(OnReview(call, r, saw), call.id) == SliceOf(OnReview(call, q, saw), call.id)
  {
    hide OnReview, Frozen, Program, SliceOf;
    FrozenEnds(call, r, saw);
    FrozenEnds(call, q, saw);
    FrozenSame(call, r, q, saw, |Program(call)|);
  }

  // --- the whole system ---

  predicate InRange(order: seq<nat>, n: nat) {
    forall k :: 0 <= k < |order| ==> order[k] < n
  }

  /** Of the transactions in `order` those on review `id`. */
  function Mine(calls: seq<Call>, order: seq<nat>, id: nat): (mine: seq<nat>)
    requires AllWrite(calls) && InRange(order, |calls|)
    ensures InRange(mine, |calls|)
    ensures forall i :: i in mine ==> i in order && i < |calls| && calls[i].id == id
    ensures forall i :: i in order && i < |calls| && calls[i].id == id ==> i in mine
    decreases |order|
  {
    if order == [] then []
    else
      var front, last := Mine(calls, order[..|order| - 1], id), order[|order| - 1];
      if calls[last].id == id then front + [last] else front
  }

  /** The answers a transaction ruled under. */
  function SawBy(sys: System, i: nat): seq<DispositionRow>
    requires i < |sys.transactions|
  {
    if sys.transactions[i].Ended? then sys.transactions[i].hand.saw else []
  }

  /** The calls of `order`, run one after the other, each under the answers its transaction ruled under. */
  function OneByOne(calls: seq<Call>, sys: System, order: seq<nat>, r: Reviews): Reviews
    requires AllWrite(calls) && |sys.transactions| == |calls| && InRange(order, |calls|)
    decreases |order|
  {
    if order == [] then r
    else
      var last := order[|order| - 1];
      OnReview(calls[last], OneByOne(calls, sys, order[..|order| - 1], r), SawBy(sys, last))
  }

  /** Those on review `id` that have ended: all, but for the one that holds its lock. */
  function Over(calls: seq<Call>, sys: System, id: nat): (over: seq<nat>)
    requires AllWrite(calls) && |sys.transactions| == |calls| && InRange(sys.order, |calls|)
    ensures InRange(over, |calls|)
  {
    var mine := Mine(calls, sys.order, id);
    if Idle(calls, sys, id) || mine == [] then mine else mine[..|mine| - 1]
  }

  /** Every order that began is listed once, and the holder of a review's lock is the last on it. */
  ghost predicate Ordered(calls: seq<Call>, sys: System)
    requires AllWrite(calls) && |sys.transactions| == |calls|
  {
    && Indices(sys.order, |calls|)
    && (forall i :: 0 <= i < |calls| ==> (i in sys.order <==> !sys.transactions[i].Waiting?))
    && forall i :: 0 <= i < |calls| && sys.transactions[i].Open? ==>
         var mine := Mine(calls, sys.order, calls[i].id);
         mine != [] && mine[|mine| - 1] == i
  }

  ghost predicate Following(calls: seq<Call>, sys: System)
    requires AllWrite(calls) && |sys.transactions| == |calls|
  {
    forall i :: 0 <= i < |calls| && sys.transactions[i].Open? ==>
      var Open(pc, l, pending) := sys.transactions[i];
      Follows(calls[i], sys.committed, pc, l, pending)
  }

  ghost predicate SliceByOne(calls: seq<Call>, r: Reviews, sys: System, id: nat)
    requires AllWrite(calls) && |sys.transactions| == |calls| && InRange(sys.order, |calls|)
  {
    SliceOf(sys.committed.reviews, id) == SliceOf(OneByOne(calls, sys, Over(calls, sys, id), r), id)
  }

  ghost predicate Isolated(calls: seq<Call>, r: Reviews, sys: System) {
    && AllWrite(calls) && |sys.transactions| == |calls|
    && Ordered(calls, sys) && Following(calls, sys)
    && forall id: nat :: SliceByOne(calls, r, sys, id)
  }

  lemma {:induction false} OneByOneSame(calls: seq<Call>, sys: System, after: System, order: seq<nat>, r: Reviews)
    requires AllWrite(calls) && |sys.transactions| == |after.transactions| == |calls|
    requires InRange(order, |calls|) && forall i :: i in order ==> sys.transactions[i] == after.transactions[i]
    ensures OneByOne(calls, sys, order, r) == OneByOne(calls, after, order, r)
    decreases |order|
  {
    hide OnReview;
    if order != [] {
      assert order[|order| - 1] in order && forall i :: i in order[..|order| - 1] ==> i in order;
      OneByOneSame(calls, sys, after, order[..|order| - 1], r);
    }
  }

  lemma MineNext(calls: seq<Call>, order: seq<nat>, i: nat, id: nat)
    requires AllWrite(calls) && i < |calls| && InRange(order, |calls|)
    ensures Mine(calls, order + [i], id)
         == if calls[i].id == id then Mine(calls, order, id) + [i] else Mine(calls, order, id)
  {
    assert (order + [i])[..|order|] == order;
  }

  /** At most one transaction on a review is under way. */
  lemma OneHolder(calls: seq<Call>, sys: System, i: nat, j: nat)
    requires AllWrite(calls) && |sys.transactions| == |calls| && Ordered(calls, sys) && i < |calls| && j < |calls|
    ensures sys.transactions[i].Open? && sys.transactions[j].Open? && calls[i].id == calls[j].id ==> i == j
  {
  }

  lemma {:induction false} MineOnce(calls: seq<Call>, order: seq<nat>, id: nat)
    requires AllWrite(calls) && Indices(order, |calls|) && InRange(order, |calls|)
    ensures Indices(Mine(calls, order, id), |calls|)
    decreases |order|
  {
    if order != [] {
      MineOnce(calls, order[..|order| - 1], id);
      var last := order[|order| - 1];
      assert last !in order[..|order| - 1];
    }
  }

  /** A transaction under way is not among those that are over. */
  lemma NotOver(calls: seq<Call>, sys: System, i: nat, id: nat)
    requires AllWrite(calls) && |sys.transactions| == |calls| && Ordered(calls, sys)
    requires i < |calls| && sys.transactions[i].Open?
    ensures i !in Over(calls, sys, id)
    ensures calls[i].id == id ==> Mine(calls, sys.order, id) == Over(calls, sys, id) + [i]
  {
    if calls[i].id == id {
      MineOnce(calls, sys.order, id);
    }
  }

  lemma TakesOrdered(calls: seq<Call>, sys: System, next: System, i: nat)
    requires AllWrite(calls) && |sys.transactions| == |calls| && Ordered(calls, sys)
    requires i < |calls| && sys.transactions[i].Waiting? && Idle(calls, sys, calls[i].id)
    requires next == sys.(transactions := sys.transactions[i := Open(0, BLANK, [])], order := sys.order + [i])
    ensures Ordered(calls, next)
    ensures forall id: nat :: Over(calls, next, id) == Over(calls, sys, id)
  {
    hide Mine;
    forall id: nat
      ensures Mine(calls, next.order, id)
           == if calls[i].id == id then Mine(calls, sys.order, id) + [i] else Mine(calls, sys.order, id)
    {
      MineNext(calls, sys.order, i, id);
    }
    assert next.transactions[i].Open?;
  }

  lemma TakesLock(calls: seq<Call>, r: Reviews, sys: System, i: nat)
    requires Isolated(calls, r, sys) && i < |calls| && sys.transactions[i].Waiting? && Idle(calls, sys, calls[i].id)
    ensures Isolated(calls, r, Step(calls, true, sys, i))
  {
    hide Follows, SliceOf, OneByOne, Program, Issue, View, Mine;
    var next := Step(calls, true, sys, i);
    assert next == sys.(transactions := sys.transactions[i := Open(0, BLANK, [])], order := sys.order + [i]);
    hide Step, Idle;
    TakesOrdered(calls, sys, next, i);
    BeginsFollowing(calls[i], sys.committed);
    forall id: nat
      ensures SliceByOne(calls, r, next, id)
    {
      assert SliceByOne(calls, r, sys, id);
      OneByOneSame(calls, sys, next, Over(calls, sys, id), r);
    }
  }

  lemma BeginsFollowing(call: Call, committed: Tables)
    requires Writes(call)
    ensures Follows(call, committed, 0, BLANK, [])
  {
    hide SliceOf;
  }

  lemma Turns(calls: seq<Call>, r: Reviews, sys: System, i: nat)
    requires Isolated(calls, r, sys) && i < |calls| && sys.transactions[i].Open?
    requires sys.transactions[i].pc < |Program(calls[i])|
    ensures Isolated(calls, r, Step(calls, true, sys, i))
  {
    hide Follows, SliceOf, OneByOne, Program, Issue, View, Mine, Blocked;
    var Open(pc, l, pending) := sys.transactions[i];
    var next := Step(calls, true, sys, i);
    var (l', writes) := Issue(calls[i], Program(calls[i])[pc], View(sys.committed, pending), l);
    if Blocked(sys, i, writes) {
      assert next == sys;
    } else {
      assert next == sys.(transactions := sys.transactions[i := Open(pc + 1, l', pending + writes)]);
      hide Step;
      FollowsNext(calls[i], sys.committed, pc, l, pending);
      assert Ordered(calls, next) && Following(calls, next);
      forall id: nat
        ensures SliceByOne(calls, r, next, id)
      {
        assert SliceByOne(calls, r, sys, id);
        NotOver(calls, sys, i, id);
        assert next.transactions[i].Open?;
        assert Over(calls, next, id) == Over(calls, sys, id);
        OneByOneSame(calls, sys, next, Over(calls, sys, id), r);
      }
    }
  }

  lemma Ends(calls: seq<Call>, r: Reviews, sys: System, i: nat)
    requires Isolated(calls, r, sys) && i < |calls| && sys.transactions[i].Open?
    requires sys.transactions[i].pc == |Program(calls[i])|
    ensures Isolated(calls, r, Step(calls, true, sys, i))
  {
    hide Follows, SliceOf, OneByOne, Program, Issue, View, Mine, OwnWrite;
    var Open(pc, l, pending) := sys.transactions[i];
    var next := Step(calls, true, sys, i);
    assert next == sys.(transactions := sys.transactions[i := Ended(l)],
                        committed := if l.error.Some? then sys.committed else View(sys.committed, pending));
    hide Step;
    FollowsOwn(calls[i], sys.committed, pc, l, pending);
    forall id: nat | id != calls[i].id
      ensures SliceOf(next.committed.reviews, id) == SliceOf(sys.committed.reviews, id)
    {
      ViewOther(sys.committed, pending, calls[i].id, id);
    }
    EndsFollowing(calls, sys, next, i);
    EndsOrdered(calls, sys, next, i);
    forall id: nat
      ensures SliceByOne(calls, r, next, id)
    {
      assert SliceByOne(calls, r, sys, id);
      EndsSlice(calls, r, sys, next, i, id);
    }
  }

  lemma EndsOrdered(calls: seq<Call>, sys: System, next: System, i: nat)
    requires AllWrite(calls) && |sys.transactions| == |next.transactions| == |calls| && Ordered(calls, sys)
    requires i < |calls| && sys.transactions[i].Open? && next.transactions[i].Ended? && next.order == sys.order
    requires forall j :: 0 <= j < |calls| && j != i ==> next.transactions[j] == sys.transactions[j]
    ensures Ordered(calls, next)
  {
    hide Mine;
  }

  /** One review, when transaction `i` ends: its own gains what its call does, another's stays. */
  lemma EndsSlice(calls: seq<Call>, r: Reviews, sys: System, next: System, i: nat, id: nat)
    requires AllWrite(calls) && |sys.transactions| == |calls| && InRange(sys.order, |calls|)
    requires Ordered(calls, sys) && SliceByOne(calls, r, sys, id)
    requires i < |calls| && sys.transactions[i].Open? && sys.transactions[i].pc == |Program(calls[i])|
    requires var Open(_, l, pending) := sys.transactions[i];
      && Follows(calls[i], sys.committed, |Program(calls[i])|, l, pending)
      && next == sys.(transactions := sys.transactions[i := Ended(l)],
                      committed := if l.error.Some? then sys.committed else View(sys.committed, pending))
    requires id != calls[i].id ==> SliceOf(next.committed.reviews, id) == SliceOf(sys.committed.reviews, id)
    ensures SliceByOne(calls, r, next, id)
  {
    hide Follows, SliceOf, OneByOne, Program, View, Mine, Over, Idle, OnReview;
    var Open(_, l, pending) := sys.transactions[i];
    NotOver(calls, sys, i, id);
    OneByOneSame(calls, sys, next, Over(calls, sys, id), r);
    if id == calls[i].id {
      LastIsOver(calls, sys, next, i);
      OneMore(calls, next, Over(calls, sys, id), i, r);
      CommitsItsCall(calls[i], sys.committed, l, pending, OneByOne(calls, next, Over(calls, sys, id), r));
    } else {
      OverElsewhere(calls, sys, next, i, id);
    }
  }

  lemma OverElsewhere(calls: seq<Call>, sys: System, next: System, i: nat, id: nat)
    requires AllWrite(calls) && |sys.transactions| == |next.transactions| == |calls| && InRange(sys.order, |calls|)
    requires i < |calls| && calls[i].id != id && next.order == sys.order
    requires forall j :: 0 <= j < |calls| && j != i ==> next.transactions[j] == sys.transactions[j]
    ensures Over(calls, next, id) == Over(calls, sys, id)
  {
    hide Mine;
    assert Idle(calls, next, id) <==> Idle(calls, sys, id);
  }

  lemma EndsFollowing(calls: seq<Call>, sys: System, next: System, i: nat)
    requires AllWrite(calls) && |sys.transactions| == |next.transactions| == |calls|
    requires Ordered(calls, sys) && Following(calls, sys)
    requires i < |calls| && sys.transactions[i].Open? && !next.transactions[i].Open?
    requires forall j :: 0 <= j < |calls| && j != i ==> next.transactions[j] == sys.transactions[j]
    requires forall id: nat :: id != calls[i].id ==> SliceOf(next.committed.reviews, id) == SliceOf(sys.committed.reviews, id)
    ensures Following(calls, next)
  {
    hide Follows, SliceOf, Mine;
    forall j | 0 <= j < |calls| && next.transactions[j].Open?
      ensures Follows(calls[j], next.committed, next.transactions[j].pc, next.transactions[j].hand,
                      next.transactions[j].pending)
    {
      OneHolder(calls, sys, i, j);
      var Open(pc, l, pending) := sys.transactions[j];
      FollowsStill(calls[j], sys.committed, next.committed, pc, l, pending);
    }
  }

  lemma FollowsOwn(call: Call, committed: Tables, pc: nat, l: Local, pending: seq<Write>)
    requires Writes(call) && Follows(call, committed, pc, l, pending)
    ensures forall w :: w in pending ==> OwnWrite(w, call.id)
  {
  }

  lemma LastIsOver(calls: seq<Call>, sys: System, next: System, i: nat)
    requires AllWrite(calls) && |sys.transactions| == |next.transactions| == |calls| && Ordered(calls, sys)
    requires i < |calls| && sys.transactions[i].Open? && !next.transactions[i].Open? && next.order == sys.order
    requires forall j :: 0 <= j < |calls| && j != i ==> next.transactions[j] == sys.transactions[j]
    ensures Over(calls, next, calls[i].id) == Over(calls, sys, calls[i].id) + [i]
  {
    NotOver(calls, sys, i, calls[i].id);
    forall j | 0 <= j < |calls| && next.transactions[j].Open?
      ensures calls[j].id != calls[i].id
    {
      OneHolder(calls, sys, i, j);
    }
  }

  lemma OneMore(calls: seq<Call>, sys: System, front: seq<nat>, i: nat, r: Reviews)
    requires AllWrite(calls) && |sys.transactions| == |calls| && InRange(front, |calls|) && i < |calls|
    ensures OneByOne(calls, sys, front + [i], r) == OnReview(calls[i], OneByOne(calls, sys, front, r), SawBy(sys, i))
  {
    hide OnReview;
    assert (front + [i])[..|front|] == front;
  }

  /** What a transaction commits to its review is what its call does to it. */
  lemma CommitsItsCall(call: Call, committed: Tables, l: Local, pending: seq<Write>, before: Reviews)
    requires Writes(call) && Follows(call, committed, |Program(call)|, l, pending)
    requires SliceOf(committed.reviews, call.id) == SliceOf(before, call.id)
    ensures SliceOf((if l.error.Some? then committed else View(committed, pending)).reviews, call.id)
         == SliceOf(OnReview(call, before, l.saw), call.id)
  {
    hide SliceOf, Program, OnReview, View, Frozen;
    FrozenEnds(call, committed.reviews, l.saw);
    OnReviewSame(call, committed.reviews, before, l.saw);
  }

  lemma IsolatedStep(calls: seq<Call>, r: Reviews, sys: System, i: nat)
    requires Isolated(calls, r, sys)
    ensures Isolated(calls, r, Step(calls, true, sys, i))
  {
    hide Program, Issue, View, Blocked, Ordered, Following, SliceByOne, Idle;
    if i < |calls| {
      match sys.transactions[i]
      case Waiting =>
        if Idle(calls, sys, calls[i].id) {
          TakesLock(calls, r, sys, i);
        }
      case Open(pc, _, _) =>
        WithinProgram(calls, r, sys, i);
        if pc < |Program(calls[i])| {
          Turns(calls, r, sys, i);
        } else {
          Ends(calls, r, sys, i);
        }
      case Ended(_) =>
    }
  }

  lemma WithinProgram(calls: seq<Call>, r: Reviews, sys: System, i: nat)
    requires Isolated(calls, r, sys) && i < |calls| && sys.transactions[i].Open?
    ensures sys.transactions[i].pc <= |Program(calls[i])|
  {
    hide Program, Frozen, SliceOf, View;
  }

  lemma IsolatedBegin(calls: seq<Call>, t: Tables)
    requires AllWrite(calls)
    ensures Isolated(calls, t.reviews, Begin(t, |calls|))
  {
    hide SliceOf, Follows;
  }

  lemma {:induction false} IsolatedRun(calls: seq<Call>, t: Tables, steps: seq<nat>)
    requires AllWrite(calls)
    ensures Isolated(calls, t.reviews, Schedule(calls, true, Begin(t, |calls|), steps))
    decreases |steps|
  {
    hide Isolated, Step;
    if steps == [] {
      IsolatedBegin(calls, t);
    } else {
      IsolatedRun(calls, t, steps[..|steps| - 1]);
      IsolatedStep(calls, t.reviews, Schedule(calls, true, Begin(t, |calls|), steps[..|steps| - 1]), steps[|steps| - 1]);
    }
  }

  /** Whatever the interleaving of submits and responds of any reviews, each holding its own review's row: whenever none
      on review `id` is under way, the row, the findings and the steps of that review are what the calls on it leave one
      after the other, in the order they took its lock, each under the answers it saw when it ruled; every call on it
      that ended is among them, once. */
  lemma LockedIsolates(calls: seq<Call>, t: Tables, steps: seq<nat>, id: nat)
    requires AllWrite(calls)
    ensures var sys := Schedule(calls, true, Begin(t, |calls|), steps);
      && Indices(sys.order, |calls|) && Indices(Mine(calls, sys.order, id), |calls|)
      && (forall i :: 0 <= i < |calls| && calls[i].id == id && sys.transactions[i].Ended? ==> i in Mine(calls, sys.order, id))
      && (Idle(calls, sys, id)
          ==> SliceOf(sys.committed.reviews, id) == SliceOf(OneByOne(calls, sys, Mine(calls, sys.order, id), t.reviews), id))
  {
    hide Schedule, OneByOne, SliceOf, Mine, Following;
    IsolatedRun(calls, t, steps);
    var sys := Schedule(calls, true, Begin(t, |calls|), steps);
    MineOnce(calls, sys.order, id);
    assert SliceByOne(calls, t.reviews, sys, id);
  }

  // --- so the findings of a review are one submission's, and its steps count up ---

  lemma AddedCounts(r: Reviews, id: nat, payload: Payload)
    requires CountUp(StepsOf(r, id))
    ensures CountUp(StepsOf(StepAdded(r, id, payload), id))
  {
    hide StepsOf, StepAdded, MaxNumber;
    StepsOfAdded(r, id, id, payload);
    HighestIsLast(StepsOf(r, id));
  }

  lemma CompleteKeepsAll(r: Reviews, id: nat, verdict: Verdict)
    ensures Complete(r, id, verdict).steps == r.steps && Complete(r, id, verdict).findings == r.findings
  {
  }

  lemma SameSteps(r: Reviews, q: Reviews, id: nat)
    requires r.steps == q.steps
    ensures StepsOf(r, id) == StepsOf(q, id)
  {
  }

  lemma ConcludedCounts(r: Reviews, id: nat, step: Payload, verdict: Verdict)
    requires CountUp(StepsOf(r, id))
    ensures CountUp(StepsOf(Concluded(r, id, step, verdict), id))
  {
    hide StepsOf, StepAdded, Complete, CountUp;
    var one := StepAdded(r, id, step);
    AddedCounts(r, id, step);
    CompleteKeepsAll(one, id, verdict);
    SameSteps(one, Complete(one, id, verdict), id);
    AddedCounts(Complete(one, id, verdict), id, VerdictStep(verdict));
  }

  /** One call: the steps go on counting, and the agent findings stay or are what was submitted. */
  lemma OnReviewKeeps(call: Call, r: Reviews, saw: seq<DispositionRow>)
    requires Writes(call) && CountUp(StepsOf(r, call.id))
    ensures CountUp(StepsOf(OnReview(call, r, saw), call.id))
    ensures AgentOf(OnReview(call, r, saw), call.id) == AgentOf(r, call.id)
      || (call.AskSubmit? && Exists(r, call.id) && AgentOf(OnReview(call, r, saw), call.id) == Stored(Tables(r, saw), call))
  {
    hide Judge, FindingsOf, StepsOf, CountUp, AllRecorded, Answer, ComputeVerdict, StepAdded, Complete, Filter, Stored, Shown;
    if call.AskSubmit? {
      if Submit(call.env, Tables(r, saw), call.actor, call.id, call.agent).Done? {
        SubmitStoresOne(Tables(r, saw), call);
        SubmitCounts(call, r, saw);
      }
    } else {
      match OwnReview(r, call.actor, call.id)
      case Err(_) =>
      case Ok(row) =>
        var q := OnReview(call, r, saw);
        if q != r {
          var final := Answer(call.env, saw, row.projectId, FindingsOf(r, call.id));
          var step := ResponsesStep(Map(Said, call.responses), call.actor.email, Count(IsMuted, final));
          RespondKeeps(r, call.id, step, ComputeVerdict(final, call.env.config(row.projectId).policy));
        }
    }
  }

  lemma RespondKeeps(r: Reviews, id: nat, step: Payload, verdict: Verdict)
    requires CountUp(StepsOf(r, id))
    ensures var q := Complete(StepAdded(r, id, step), id, verdict);
      CountUp(StepsOf(q, id)) && AgentOf(q, id) == AgentOf(r, id)
  {
    hide StepsOf, Complete, CountUp, FindingsOf, Filter;
    AddedCounts(r, id, step);
    CompleteKeepsAll(StepAdded(r, id, step), id, verdict);
    SameSteps(StepAdded(r, id, step), Complete(StepAdded(r, id, step), id, verdict), id);
    SameRowsSameFindings(r, Complete(StepAdded(r, id, step), id, verdict), id);
  }

  lemma SubmitCounts(call: Call, r: Reviews, saw: seq<DispositionRow>)
    requires call.AskSubmit? && CountUp(StepsOf(r, call.id))
    requires Submit(call.env, Tables(r, saw), call.actor, call.id, call.agent).Done?
    ensures CountUp(StepsOf(OnReview(call, r, saw), call.id))
  {
    hide Judge, FindingsOf, StepsOf, CountUp, Concluded, Filter, Shown;
    var row := OwnReview(r, call.actor, call.id).value;
    var j := Judge(call.env, saw, row.projectId, call.env.config(row.projectId),
                   Filter(Dedup.IsDeterministic, FindingsOf(r, call.id)), AddedOfReview(r, call.id), call.agent,
                   row.status == Completed);
    var q := AgentReplaced(r, call.id, j.agentFinal);
    SameSteps(r, q, call.id);
    ConcludedCounts(q, call.id, j.step, j.verdict);
  }

  /** The agent findings are those transaction `mine[k]` submitted. */
  ghost predicate StoredBy(calls: seq<Call>, sys: System, mine: seq<nat>, r: Reviews, id: nat, k: nat)
    requires AllWrite(calls) && |sys.transactions| == |calls| && InRange(mine, |calls|)
  {
    && k < |mine| && calls[mine[k]].AskSubmit? && calls[mine[k]].id == id
    && var before := Tables(OneByOne(calls, sys, mine[..k], r), SawBy(sys, mine[k]));
       Exists(before.reviews, id) && AgentOf(OneByOne(calls, sys, mine, r), id) == Stored(before, calls[mine[k]])
  }

  ghost predicate HoldsOneOf(calls: seq<Call>, sys: System, mine: seq<nat>, r: Reviews, id: nat)
    requires AllWrite(calls) && |sys.transactions| == |calls| && InRange(mine, |calls|)
  {
    || AgentOf(OneByOne(calls, sys, mine, r), id) == AgentOf(r, id)
    || exists k: nat :: StoredBy(calls, sys, mine, r, id, k)
  }

  lemma {:induction false} OneByOneKeeps(calls: seq<Call>, sys: System, mine: seq<nat>, r: Reviews, id: nat)
    requires AllWrite(calls) && |sys.transactions| == |calls| && InRange(mine, |calls|) && CountUp(StepsOf(r, id))
    requires forall k :: 0 <= k < |mine| ==> calls[mine[k]].id == id
    ensures CountUp(StepsOf(OneByOne(calls, sys, mine, r), id)) && HoldsOneOf(calls, sys, mine, r, id)
    decreases |mine|
  {
    hide OnReview, StepsOf, CountUp, AgentOf, Stored;
    if mine != [] {
      var front, last := mine[..|mine| - 1], mine[|mine| - 1];
      var before := OneByOne(calls, sys, front, r);
      OneByOneKeeps(calls, sys, front, r, id);
      OnReviewKeeps(calls[last], before, SawBy(sys, last));
      if AgentOf(OneByOne(calls, sys, mine, r), id) != AgentOf(before, id) {
        assert StoredBy(calls, sys, mine, r, id, |front|);
      } else if AgentOf(before, id) != AgentOf(r, id) {
        var k: nat :| StoredBy(calls, sys, front, r, id, k);
        assert mine[..k] == front[..k];
        assert StoredBy(calls, sys, mine, r, id, k);
      }
    }
  }

  /** So under the lock, whatever goes on elsewhere, whenever no call on a review is under way its agent findings are
      those of one submission, whole, or the ones from before, and its steps count 1, 2, 3, … */
  lemma LockedKeepsEach(calls: seq<Call>, t: Tables, steps: seq<nat>, id: nat)
    requires AllWrite(calls) && CountUp(StepsOf(t.reviews, id))
    requires Idle(calls, Schedule(calls, true, Begin(t, |calls|), steps), id)
    ensures var sys := Schedule(calls, true, Begin(t, |calls|), steps);
      && Indices(sys.order, |calls|)
      && var mine := Mine(calls, sys.order, id);
         && AgentOf(sys.committed.reviews, id) == AgentOf(OneByOne(calls, sys, mine, t.reviews), id)
         && HoldsOneOf(calls, sys, mine, t.reviews, id)
         && CountUp(StepsOf(sys.committed.reviews, id))
  {
    hide Schedule, OneByOne, Mine, HoldsOneOf, CountUp, StepsOf;
    LockedIsolates(calls, t, steps, id);
    var sys := Schedule(calls, true, Begin(t, |calls|), steps);
    var mine := Mine(calls, sys.order, id);
    OneByOneKeeps(calls, sys, mine, t.reviews, id);
    SameReads(sys.committed.reviews, OneByOne(calls, sys, mine, t.reviews), Principal(0, "", None, false, false), id);
  }
}
