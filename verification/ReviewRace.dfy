// What the row lock is for: without it two submissions at once leave both sets of findings behind, and two steps that
// share a number.
module ReviewRace {
  import opened Strings
  import opened Sorting
  import opened Findings
  import opened ReviewTables
  import opened ReviewProtocol
  import opened ReviewFacts
  import opened ReviewVerdicts
  import opened ReviewRuns
  import opened ReviewLocking

  // --- what a submission left alone writes ---

  lemma PendingNext(call: Call, t: Tables, k: nat)
    requires Writes(call) && k < |Program(call)|
    ensures Alone(call, t, k + 1).1 == Alone(call, t, k).1 + Issue(call, Program(call)[k], Seen(call, t, k).1, Seen(call, t, k).0).1
  {
    hide Issue, Program, View;
  }

  function JudgedBy(t: Tables, call: Call): Judgement
    requires call.AskSubmit? && Exists(t.reviews, call.id)
  {
    var row := RowOf(t.reviews, call.id);
    Judge(call.env, t.answers, row.projectId, call.env.config(row.projectId), Deterministic(t.reviews, call.id),
          row.added, call.agent, row.status == Completed)
  }

  /** The writes of a submission that finds nothing of the agent's, in order; `last` is how far the number of its
      verdict step lies above the highest it saw first. */
  function WritesOf(t: Tables, call: Call, last: nat): seq<Write>
    requires call.AskSubmit? && Exists(t.reviews, call.id)
  {
    var j, max := JudgedBy(t, call), MaxNumber(StepsOf(t.reviews, call.id));
    [DeleteFindings({}), InsertFindings(call.id, j.agentFinal), InsertStep(StepRow(call.id, max + 1, j.step)),
     UpdateReview(call.id, j.verdict), InsertStep(StepRow(call.id, max + last, VerdictStep(j.verdict)))]
  }

  predicate Reads(s: Statement) {
    s.SelectForUpdate? || s.ReadStored? || s.Decide? || s.ReadMax?
  }

  lemma ReadsWriteNothing(call: Call, s: Statement, view: Tables, l: Local)
    requires Writes(call) && Reads(s)
    ensures Issue(call, s, view, l).1 == []
  {
    hide AgentRows, StandingRows, Checked, Decision, OwnReview, FindingsOf, Shown, MaxNumber, StepsOf, AnswerRow;
  }

  lemma AgentRowShows(r: Reviews, id: nat, row: FindingRow)
    requires row in r.findings && IsAgentRow(row, id)
    ensures row.finding in AgentOf(r, id)
  {
    FilterMembers(OfReview(id), r.findings);
    FilterMembers(IsAgent, FindingsOf(r, id));
    var mine := Filter(OfReview(id), r.findings);
    var k :| 0 <= k < |mine| && mine[k] == row;
    assert FindingsOf(r, id)[k] == row.finding;
  }

  lemma NoAgentRows(r: Reviews, id: nat)
    requires AgentOf(r, id) == []
    ensures AgentRows(r.findings, id) == {}
  {
    forall row | row in r.findings && IsAgentRow(row, id)
      ensures row.finding in AgentOf(r, id)
    {
      AgentRowShows(r, id, row);
    }
  }

  /** What a submission may do, alone, to a review with nothing of the agent's. */
  predicate MaySubmit(t: Tables, call: Call) {
    call.AskSubmit? && OwnReview(t.reviews, call.actor, call.id).Ok? && Exists(t.reviews, call.id)
    && AgentOf(t.reviews, call.id) == []
  }

  lemma ReadsAlone(t: Tables, call: Call)
    requires MaySubmit(t, call)
    ensures Alone(call, t, 3).1 == []
    ensures var (l, view) := Seen(call, t, 3);
      view == t && l.error.None? && l.judged == JudgedBy(t, call)
  {
    hide Seen, Alone, Issue, OwnReview, FindingsOf, Filter, Judge, AgentOf;
    AloneNothing(call, t);
    PendingNext(call, t, 0);
    PendingNext(call, t, 1);
    PendingNext(call, t, 2);
    ReadsWriteNothing(call, SelectForUpdate, Seen(call, t, 0).1, Seen(call, t, 0).0);
    ReadsWriteNothing(call, ReadStored, Seen(call, t, 1).1, Seen(call, t, 1).0);
    ReadsWriteNothing(call, Decide, Seen(call, t, 2).1, Seen(call, t, 2).0);
    SubmitReads(call, t);
    OwnRow(t.reviews, call.actor, call.id);
  }

  lemma AloneNothing(call: Call, t: Tables)
    requires Writes(call)
    ensures Alone(call, t, 0).1 == []
  {
  }

  /** A submission up to where it writes the review's row, and to its end. */
  lemma SubmitPending(t: Tables, call: Call)
    requires MaySubmit(t, call)
    ensures var (l, pending) := Alone(call, t, 7);
      pending == WritesOf(t, call, 2)[..3] && l.error.None? && l.judged == JudgedBy(t, call)
    ensures Alone(call, t, 10).1 == WritesOf(t, call, 2) && Alone(call, t, 10).0.error.None?
  {
    hide Seen, Alone, Issue, OwnReview, FindingsOf, Filter, Judge, AgentOf, StepsOf, MaxNumber, Complete, JudgedBy, AgentRows;
    ReadsAlone(t, call);
    StoresAlone(t, call);
    StepAlone(t, call);
    TrailAlone(t, call);
    SeenIsAlone(call, t, 7);
  }

  lemma StoresAlone(t: Tables, call: Call)
    requires MaySubmit(t, call)
    requires Alone(call, t, 3).1 == []
    requires var (l, view) := Seen(call, t, 3); view == t && l.error.None? && l.judged == JudgedBy(t, call)
    ensures Alone(call, t, 5).1 == WritesOf(t, call, 2)[..2]
    ensures var (l, view) := Seen(call, t, 5);
      l.error.None? && l.judged == JudgedBy(t, call) && view.reviews.steps == t.reviews.steps
  {
    hide Seen, Alone, OwnReview, FindingsOf, Filter, Judge, AgentOf, StepsOf, MaxNumber, JudgedBy, AgentRows, StandingRows,
         Checked, Decision, Shown, AnswerRow;
    PendingNext(call, t, 3);
    PendingNext(call, t, 4);
    SeenNext(call, t, 3);
    SubmitStores(call, t);
    NoAgentRows(t.reviews, call.id);
  }

  lemma StepAlone(t: Tables, call: Call)
    requires MaySubmit(t, call)
    requires Alone(call, t, 5).1 == WritesOf(t, call, 2)[..2]
    requires var (l, view) := Seen(call, t, 5);
      l.error.None? && l.judged == JudgedBy(t, call) && view.reviews.steps == t.reviews.steps
    ensures Alone(call, t, 7).1 == WritesOf(t, call, 2)[..3]
    ensures var (l, view) := Seen(call, t, 7);
      l.error.None? && l.judged == JudgedBy(t, call)
      && StepsOf(view.reviews, call.id) == StepsOf(t.reviews, call.id)
           + [StepRow(call.id, MaxNumber(StepsOf(t.reviews, call.id)) + 1, l.judged.step)]
  {
    hide Alone, OwnReview, FindingsOf, Filter, Judge, AgentOf, MaxNumber, JudgedBy, AgentRows, StandingRows,
         Checked, Decision, Shown, AnswerRow, Seen, Complete;
    var (l5, view5) := Seen(call, t, 5);
    assert StepsOf(view5.reviews, call.id) == StepsOf(t.reviews, call.id);
    SeenNext(call, t, 5);
    assert Seen(call, t, 6).0 == l5.(max := MaxNumber(StepsOf(t.reviews, call.id)));
    StepWritten(call, t, 5);
    StepsOfAdded(view5.reviews, call.id, call.id, l5.judged.step);
    hide StepsOf;
    PendingNext(call, t, 5);
    PendingNext(call, t, 6);
  }

  lemma TrailAlone(t: Tables, call: Call)
    requires MaySubmit(t, call)
    requires Alone(call, t, 7).1 == WritesOf(t, call, 2)[..3]
    requires var (l, view) := Seen(call, t, 7);
      l.error.None? && l.judged == JudgedBy(t, call)
      && StepsOf(view.reviews, call.id) == StepsOf(t.reviews, call.id)
           + [StepRow(call.id, MaxNumber(StepsOf(t.reviews, call.id)) + 1, l.judged.step)]
    ensures Alone(call, t, 10).1 == WritesOf(t, call, 2) && Alone(call, t, 10).0.error.None?
  {
    hide Alone, OwnReview, FindingsOf, Filter, Judge, AgentOf, MaxNumber, JudgedBy, AgentRows, StandingRows,
         Checked, Decision, Shown, AnswerRow, Seen, Complete;
    var (l7, view7) := Seen(call, t, 7);
    var max := MaxNumber(StepsOf(t.reviews, call.id));
    VerdictWritten(call, t, 7);
    CompleteKeepsSteps(view7.reviews, call.id, l7.judged.verdict);
    MaxNumberNext(StepsOf(t.reviews, call.id), StepRow(call.id, max + 1, l7.judged.step));
    SeenNext(call, t, 8);
    assert Seen(call, t, 9).0 == l7.(max := max + 1);
    hide StepsOf;
    PendingNext(call, t, 7);
    PendingNext(call, t, 8);
    PendingNext(call, t, 9);
    SeenNext(call, t, 9);
    SeenIsAlone(call, t, 10);
  }

  lemma SeenIsAlone(call: Call, t: Tables, k: nat)
    requires Writes(call) && k <= |Program(call)|
    ensures Seen(call, t, k).0 == Alone(call, t, k).0
  {
    hide Alone, View, Program;
  }

  lemma CompleteKeepsSteps(r: Reviews, id: nat, verdict: Verdict)
    ensures Complete(r, id, verdict).steps == r.steps
  {
  }

  // --- the schedule ---

  function Times(i: nat, n: nat): seq<nat> {
    seq(n, _ => i)
  }

  lemma {:induction false} ScheduleInTwo(calls: seq<Call>, locking: bool, sys: System, a: seq<nat>, b: seq<nat>)
    requires AllWrite(calls) && |sys.transactions| == |calls|
    ensures Schedule(calls, locking, sys, a + b) == Schedule(calls, locking, Schedule(calls, locking, sys, a), b)
    decreases |b|
  {
    hide Step;
    if b == [] {
      assert a + b == a;
    } else {
      assert (a + b)[..|a + b| - 1] == a + b[..|b| - 1];
      ScheduleInTwo(calls, locking, sys, a, b[..|b| - 1]);
    }
  }

  lemma BlockedMore(sys: System, i: nat, some: seq<Write>, more: seq<Write>)
    requires forall w :: w in some ==> w in more
    ensures Blocked(sys, i, some) ==> Blocked(sys, i, more)
  {
    hide Conflicts;
  }

  /** A transaction under way, given its turns, does what it would do alone, as long as nothing else is committed and
      nobody else has written a row it writes. */
  lemma {:induction false} Proceeds(calls: seq<Call>, locking: bool, sys: System, i: nat, n: nat)
    requires AllWrite(calls) && |sys.transactions| == |calls| && i < |calls| && n <= |Program(calls[i])|
    requires sys.transactions[i] == Open(0, BLANK, []) && !Blocked(sys, i, Alone(calls[i], sys.committed, n).1)
    ensures var (l, pending) := Alone(calls[i], sys.committed, n);
      Schedule(calls, locking, sys, Times(i, n))
      == sys.(transactions := sys.transactions[i := Open(n, l, pending)])
    decreases n
  {
    hide Program, Issue, View, Blocked;
    if n == 0 {
      assert sys.transactions[i := sys.transactions[i]] == sys.transactions;
    } else {
      assert Times(i, n)[..n - 1] == Times(i, n - 1);
      var (l, pending) := Alone(calls[i], sys.committed, n - 1);
      var writes := Issue(calls[i], Program(calls[i])[n - 1], View(sys.committed, pending), l).1;
      assert Alone(calls[i], sys.committed, n).1 == pending + writes;
      BlockedMore(sys, i, pending, pending + writes);
      Proceeds(calls, locking, sys, i, n - 1);
      BlockedMore(sys, i, writes, pending + writes);
      BlockedElsewhere(sys, i, Open(n - 1, l, pending), writes);
    }
  }

  /** What blocks a transaction are the others. */
  lemma BlockedElsewhere(sys: System, i: nat, now: Transaction, writes: seq<Write>)
    requires i < |sys.transactions|
    ensures Blocked(sys.(transactions := sys.transactions[i := now]), i, writes) <==> Blocked(sys, i, writes)
  {
    hide Clash;
    var next := sys.(transactions := sys.transactions[i := now]);
    assert forall j :: 0 <= j < |sys.transactions| && j != i ==> next.transactions[j] == sys.transactions[j];
  }

  /** Both open, the first runs, the second runs up to where it writes the review's row, which the first holds; the first
      commits, the second goes on and commits. */
  function Race(): seq<nat> {
    [0, 1] + Times(0, 10) + Times(1, 7) + [0] + Times(1, 4)
  }

  lemma StepOnce(calls: seq<Call>, locking: bool, sys: System, a: nat)
    requires AllWrite(calls) && |sys.transactions| == |calls|
    ensures Schedule(calls, locking, sys, [a]) == Step(calls, locking, sys, a)
  {
    hide Step;
    assert [a][..0] == [];
  }

  lemma StepsOneByOne(calls: seq<Call>, locking: bool, sys: System, a: nat, b: nat)
    requires AllWrite(calls) && |sys.transactions| == |calls|
    ensures Schedule(calls, locking, sys, [a, b]) == Step(calls, locking, Step(calls, locking, sys, a), b)
  {
    hide Step;
    assert [a, b][..1] == [a];
    StepOnce(calls, locking, sys, a);
  }

  lemma SubmitProgram(call: Call)
    requires call.AskSubmit?
    ensures |Program(call)| == 10 && Program(call)[7] == WriteVerdict && Program(call)[8] == ReadMax
    ensures Program(call)[9] == WriteVerdictStep
  {
  }

  /** The writes of a submission whose verdict is written when `v` is committed. */
  function Late(v: Tables, call: Call, judged: Judgement, pending: seq<Write>): seq<Write>
    requires Writes(call)
  {
    var ruled := pending + [UpdateReview(call.id, judged.verdict)];
    var max := MaxNumber(StepsOf(View(v, ruled).reviews, call.id));
    ruled + [InsertStep(StepRow(call.id, max + 1, VerdictStep(judged.verdict)))]
  }

  /** The last three statements of a submission with nobody else under way, and its commit. */
  lemma LastTurns(calls: seq<Call>, sys: System, l: Local, pending: seq<Write>)
    requires AllWrite(calls) && |calls| == |sys.transactions| == 2 && calls[1].AskSubmit?
    requires !sys.transactions[0].Open? && sys.transactions[1] == Open(7, l, pending) && l.error.None?
    ensures var end := Schedule(calls, false, sys, Times(1, 4));
      Free(end) && end.committed == View(sys.committed, Late(sys.committed, calls[1], l.judged, pending))
  {
    hide View, Program, MaxNumber, StepsOf, Schedule;
    SubmitProgram(calls[1]);
    var call, v := calls[1], sys.committed;
    var ruled := pending + [UpdateReview(call.id, l.judged.verdict)];
    var l' := l.(max := MaxNumber(StepsOf(View(v, ruled).reviews, call.id)));
    var a := sys.(transactions := sys.transactions[1 := Open(8, l, ruled)]);
    var b := sys.(transactions := sys.transactions[1 := Open(9, l', ruled)]);
    var c := sys.(transactions := sys.transactions[1 := Open(10, l', Late(v, call, l.judged, pending))]);
    assert ruled + [] == ruled;
    OneTurn(calls, sys, a, 7, l, pending, l, [UpdateReview(call.id, l.judged.verdict)]);
    OneTurn(calls, a, b, 8, l, ruled, l', []);
    OneTurn(calls, b, c, 9, l', ruled, l', [InsertStep(StepRow(call.id, l'.max + 1, VerdictStep(l.judged.verdict)))]);
    FourTurns(calls, sys, a, b, c);
  }

  lemma OneTurn(calls: seq<Call>, sys: System, next: System, pc: nat, l: Local, pending: seq<Write>, l': Local,
                writes: seq<Write>)
    requires AllWrite(calls) && |calls| == |sys.transactions| == 2 && !sys.transactions[0].Open?
    requires pc < |Program(calls[1])| && sys.transactions[1] == Open(pc, l, pending)
    requires Issue(calls[1], Program(calls[1])[pc], View(sys.committed, pending), l) == (l', writes)
    requires next == sys.(transactions := sys.transactions[1 := Open(pc + 1, l', pending + writes)])
    ensures Step(calls, false, sys, 1) == next
  {
    hide View, Program, Issue;
  }

  lemma FourTurns(calls: seq<Call>, sys: System, a: System, b: System, c: System)
    requires AllWrite(calls) && |calls| == |sys.transactions| == |a.transactions| == |b.transactions| == |c.transactions|
    requires a == Step(calls, false, sys, 1) && b == Step(calls, false, a, 1) && c == Step(calls, false, b, 1)
    ensures Schedule(calls, false, sys, Times(1, 4)) == Step(calls, false, c, 1)
  {
    hide Step;
    assert Times(1, 4) == [1, 1] + [1, 1];
    ScheduleInTwo(calls, false, sys, [1, 1], [1, 1]);
    StepsOneByOne(calls, false, sys, 1, 1);
    StepsOneByOne(calls, false, b, 1, 1);
  }

  lemma Harmless(t: Tables, call: Call, pending: seq<Write>)
    requires call.AskSubmit? && Exists(t.reviews, call.id)
    ensures !Clash(WritesOf(t, call, 2)[..3], pending) && !Clash(pending, [])
  {
    hide JudgedBy, MaxNumber, StepsOf;
  }

  /** Where the two stand when the second waits for the row the first has written. */
  lemma SecondWaits(calls: seq<Call>, t: Tables)
    requires |calls| == 2 && MaySubmit(t, calls[0]) && MaySubmit(t, calls[1])
    ensures var (one, first) := Alone(calls[0], t, 10);
      var (two, second) := Alone(calls[1], t, 7);
      Schedule(calls, false, Begin(t, 2), [0, 1] + Times(0, 10) + Times(1, 7))
      == System(t, [Open(10, one, first), Open(7, two, second)], [0, 1])
  {
    hide Alone, Issue, View, Schedule, OwnReview, AgentOf, WritesOf, Program, Clash, JudgedBy, Times;
    var start := Begin(t, 2);
    var under := System(t, [Open(0, BLANK, []), Open(0, BLANK, [])], [0, 1]);
    SubmitProgram(calls[0]);
    SubmitProgram(calls[1]);
    ScheduleInTwo(calls, false, start, [0, 1] + Times(0, 10), Times(1, 7));
    ScheduleInTwo(calls, false, start, [0, 1], Times(0, 10));
    StepsOneByOne(calls, false, start, 0, 1);
    assert Schedule(calls, false, start, [0, 1]) == under;
    SubmitPending(t, calls[0]);
    SubmitPending(t, calls[1]);
    Harmless(t, calls[0], Alone(calls[0], t, 10).1);
    Harmless(t, calls[1], Alone(calls[0], t, 10).1);
    Proceeds(calls, false, under, 0, 10);
    var ran := Schedule(calls, false, under, Times(0, 10));
    Proceeds(calls, false, ran, 1, 7);
  }

  /** There it does wait: given a turn before the first has ended, it does nothing. */
  lemma SecondIsBlocked(calls: seq<Call>, t: Tables)
    requires |calls| == 2 && MaySubmit(t, calls[0]) && MaySubmit(t, calls[1]) && calls[0].id == calls[1].id
    ensures var waits := Schedule(calls, false, Begin(t, 2), [0, 1] + Times(0, 10) + Times(1, 7));
      Step(calls, false, waits, 1) == waits
  {
    hide Alone, View, Schedule, OwnReview, AgentOf, Program, JudgedBy, Times, MaxNumber, StepsOf, Issue;
    SubmitProgram(calls[0]);
    SubmitProgram(calls[1]);
    SubmitPending(t, calls[0]);
    SubmitPending(t, calls[1]);
    SecondWaits(calls, t);
    var (one, first) := Alone(calls[0], t, 10);
    var (two, second) := Alone(calls[1], t, 7);
    var waits := System(t, [Open(10, one, first), Open(7, two, second)], [0, 1]);
    WritesRow(calls[1], View(t, second), two);
    var row := UpdateReview(calls[1].id, two.judged.verdict);
    assert first[3].UpdateReview? && first[3] in first && Conflicts(row, first[3]);
    assert row in [row];
    assert waits.transactions[0].Open? && Clash([row], waits.transactions[0].pending);
    assert Blocked(waits, 1, [row]);
  }

  lemma WritesRow(call: Call, view: Tables, l: Local)
    requires Writes(call) && l.error.None?
    ensures Issue(call, WriteVerdict, view, l) == (l, [UpdateReview(call.id, l.judged.verdict)])
  {
    hide OwnReview, FindingsOf, Shown, Decision, Checked, StandingRows, AnswerRow, MaxNumber, StepsOf, AgentRows;
  }

  lemma RaceInThree(calls: seq<Call>, t: Tables, waits: System)
    requires AllWrite(calls) && |calls| == 2
    requires waits == Schedule(calls, false, Begin(t, 2), [0, 1] + Times(0, 10) + Times(1, 7))
    ensures |Step(calls, false, waits, 0).transactions| == 2
    ensures Schedule(calls, false, Begin(t, 2), Race()) == Schedule(calls, false, Step(calls, false, waits, 0), Times(1, 4))
  {
    hide Schedule, Step, Times;
    var start, front := Begin(t, 2), [0, 1] + Times(0, 10) + Times(1, 7);
    ScheduleInTwo(calls, false, start, front + [0], Times(1, 4));
    ScheduleInTwo(calls, false, start, front, [0]);
    StepOnce(calls, false, waits, 0);
  }

  lemma RaceCommits(calls: seq<Call>, t: Tables)
    requires |calls| == 2 && MaySubmit(t, calls[0]) && MaySubmit(t, calls[1])
    ensures var sys := Schedule(calls, false, Begin(t, 2), Race());
      var one := View(t, WritesOf(t, calls[0], 2));
      Free(sys) && sys.committed == View(one, Late(one, calls[1], JudgedBy(t, calls[1]), WritesOf(t, calls[1], 2)[..3]))
  {
    hide Alone, Issue, View, Schedule, OwnReview, AgentOf, WritesOf, Program, Clash, Late, Times, Race, JudgedBy, Step, Begin;
    SubmitProgram(calls[0]);
    SubmitProgram(calls[1]);
    SubmitPending(t, calls[0]);
    SubmitPending(t, calls[1]);
    SecondWaits(calls, t);
    var (one, first) := Alone(calls[0], t, 10);
    var (two, second) := Alone(calls[1], t, 7);
    var waits := System(t, [Open(10, one, first), Open(7, two, second)], [0, 1]);
    RaceInThree(calls, t, waits);
    FirstCommits(calls, waits);
    LastTurns(calls, Step(calls, false, waits, 0), two, second);
  }

  lemma FirstCommits(calls: seq<Call>, sys: System)
    requires AllWrite(calls) && |calls| == |sys.transactions| == 2 && sys.transactions[0].Open?
    requires sys.transactions[0].pc == |Program(calls[0])| && sys.transactions[0].hand.error.None?
    ensures Step(calls, false, sys, 0)
         == sys.(transactions := [Ended(sys.transactions[0].hand), sys.transactions[1]],
                 committed := View(sys.committed, sys.transactions[0].pending))
  {
    hide View, Program, Issue;
    assert sys.transactions[0 := Ended(sys.transactions[0].hand)] == [Ended(sys.transactions[0].hand), sys.transactions[1]];
  }

  // --- what is left behind ---

  lemma ViewNext(t: Tables, writes: seq<Write>, k: nat)
    requires k < |writes|
    ensures View(t, writes[..k + 1]) == Apply(View(t, writes[..k]), writes[k])
  {
    hide Apply;
    assert writes[..k + 1][..k] == writes[..k];
  }

  /** What the writes of a submission made of `t` do to a state `v`. */
  lemma Written(t: Tables, call: Call, last: nat, v: Tables)
    requires call.AskSubmit? && Exists(t.reviews, call.id)
    ensures var after, j := View(v, WritesOf(t, call, last)), JudgedBy(t, call);
      var max := MaxNumber(StepsOf(t.reviews, call.id));
      && after.reviews.findings == v.reviews.findings + Map(ToRow(call.id), j.agentFinal)
      && after.reviews.steps == v.reviews.steps
           + [StepRow(call.id, max + 1, j.step), StepRow(call.id, max + last, VerdictStep(j.verdict))]
      && View(v, WritesOf(t, call, last)[..4]).reviews.steps == v.reviews.steps + [StepRow(call.id, max + 1, j.step)]
  {
    hide JudgedBy, MaxNumber, StepsOf, View;
    var writes := WritesOf(t, call, last);
    ViewNothing(v);
    assert writes[..0] == [] && writes[..5] == writes;
    ViewNext(v, writes, 0);
    ViewNext(v, writes, 1);
    ViewNext(v, writes, 2);
    ViewNext(v, writes, 3);
    ViewNext(v, writes, 4);
    FilterAll(Unseen({}), v.reviews.findings);
  }

  lemma ViewNothing(t: Tables)
    ensures View(t, []) == t
  {
  }

  lemma FindingsOfMore(a: Reviews, b: Reviews, id: nat, batch: seq<Finding>)
    requires b.findings == a.findings + Map(ToRow(id), batch)
    ensures FindingsOf(b, id) == FindingsOf(a, id) + Forgotten(batch)
  {
    FindingsOfAdded(a, id, id, batch);
    SameRowsSameFindings(b, FindingsAdded(a, id, batch), id);
  }

  lemma StepsOfMore(a: Reviews, b: Reviews, id: nat, one: StepRow, two: StepRow)
    requires b.steps == a.steps + [one, two] && one.reviewId == id && two.reviewId == id
    ensures StepsOf(b, id) == StepsOf(a, id) + [one, two]
  {
    FilterConcat(StepOf(id), a.steps, [one, two]);
    FilterAll(StepOf(id), [one, two]);
  }

  lemma JudgedAgents(t: Tables, call: Call)
    requires call.AskSubmit? && Exists(t.reviews, call.id)
    ensures forall k :: 0 <= k < |JudgedBy(t, call).agentFinal| ==> IsAgent(JudgedBy(t, call).agentFinal[k])
    ensures Filter(IsAgent, Forgotten(JudgedBy(t, call).agentFinal)) == Stored(t, call)
  {
    hide Final, ScopedAgent, ComputeVerdict, FindingsStepOf, FindingsOf, Filter;
    var row := RowOf(t.reviews, call.id);
    FiltersAgent(Final(call.env, t.answers, row.projectId, Deterministic(t.reviews, call.id),
      ScopedAgent(call.env, call.env.config(row.projectId), row.added,
                  Take(call.agent, call.env.config(row.projectId).policy.maxAgentFindings))));
    FilterAll(IsAgent, Forgotten(JudgedBy(t, call).agentFinal));
  }

  /** The second submission numbers its verdict step above both of the first's. */
  lemma LateIs(t: Tables, calls: seq<Call>, id: nat)
    requires |calls| == 2 && MaySubmit(t, calls[0]) && MaySubmit(t, calls[1]) && calls[0].id == calls[1].id == id
    ensures var one := View(t, WritesOf(t, calls[0], 2));
      Late(one, calls[1], JudgedBy(t, calls[1]), WritesOf(t, calls[1], 2)[..3]) == WritesOf(t, calls[1], 3)
  {
    hide Issue, View, OwnReview, JudgedBy, Stored, FindingsOf, StepsOf, MaxNumber, Filter, AgentOf;
    var one, a, b := View(t, WritesOf(t, calls[0], 2)), JudgedBy(t, calls[0]), JudgedBy(t, calls[1]);
    var steps, max := StepsOf(t.reviews, id), MaxNumber(StepsOf(t.reviews, id));
    Written(t, calls[0], 2, t);
    Written(t, calls[1], 3, one);
    var three, four := StepRow(id, max + 1, a.step), StepRow(id, max + 2, VerdictStep(a.verdict));
    var five := StepRow(id, max + 1, b.step);
    StepsOfMore(t.reviews, one.reviews, id, three, four);
    var ruled := WritesOf(t, calls[1], 3)[..4];
    assert WritesOf(t, calls[1], 2)[..3] + [UpdateReview(id, b.verdict)] == ruled;
    StepsOfOne(one.reviews, View(one, ruled).reviews, id, five);
    assert steps + [three, four] == (steps + [three]) + [four];
    MaxNumberNext(steps, three);
    MaxNumberNext(steps + [three], four);
    MaxNumberNext(steps + [three, four], five);
    assert ruled + [InsertStep(StepRow(id, max + 3, VerdictStep(b.verdict)))] == WritesOf(t, calls[1], 3);
  }

  lemma StepsOfOne(a: Reviews, b: Reviews, id: nat, one: StepRow)
    requires b.steps == a.steps + [one] && one.reviewId == id
    ensures StepsOf(b, id) == StepsOf(a, id) + [one]
  {
    FilterConcat(StepOf(id), a.steps, [one]);
    FilterAll(StepOf(id), [one]);
  }

  /** Without the lock there is a schedule, for any two submissions to a review just planned, that ends with both sets of
      agent findings stored and one pair of steps sharing a number: the two that say what was submitted. */
  lemma UnlockedMixes(calls: seq<Call>, t: Tables, id: nat)
    requires |calls| == 2 && MaySubmit(t, calls[0]) && MaySubmit(t, calls[1]) && calls[0].id == calls[1].id == id
    ensures var sys := Schedule(calls, false, Begin(t, 2), Race());
      var after := sys.committed.reviews;
      var steps, max := StepsOf(after, id), MaxNumber(StepsOf(t.reviews, id));
      var n := |StepsOf(t.reviews, id)|;
      && Free(sys)
      && AgentOf(after, id) == Stored(t, calls[0]) + Stored(t, calls[1])
      && |steps| == n + 4 && steps[..n] == StepsOf(t.reviews, id) && !CountUp(steps)
      && steps[n].number == steps[n + 2].number == max + 1
      && steps[n + 1].number == max + 2 && steps[n + 3].number == max + 3
  {
    hide Alone, Issue, View, Schedule, OwnReview, WritesOf, Program, JudgedBy, Stored, FindingsOf, StepsOf, MaxNumber,
         Filter, Late;
    RaceCommits(calls, t);
    LateIs(t, calls, id);
    var one := View(t, WritesOf(t, calls[0], 2));
    var two := View(one, WritesOf(t, calls[1], 3));
    var a, b := JudgedBy(t, calls[0]), JudgedBy(t, calls[1]);
    var max := MaxNumber(StepsOf(t.reviews, id));
    Written(t, calls[0], 2, t);
    Written(t, calls[1], 3, one);
    FindingsOfMore(t.reviews, one.reviews, id, a.agentFinal);
    FindingsOfMore(one.reviews, two.reviews, id, b.agentFinal);
    FilterConcat(IsAgent, FindingsOf(t.reviews, id) + Forgotten(a.agentFinal), Forgotten(b.agentFinal));
    FilterConcat(IsAgent, FindingsOf(t.reviews, id), Forgotten(a.agentFinal));
    JudgedAgents(t, calls[0]);
    JudgedAgents(t, calls[1]);
    assert [] + Stored(t, calls[0]) == Stored(t, calls[0]);
    StepsOfMore(t.reviews, one.reviews, id, StepRow(id, max + 1, a.step), StepRow(id, max + 2, VerdictStep(a.verdict)));
    StepsOfMore(one.reviews, two.reviews, id, StepRow(id, max + 1, b.step), StepRow(id, max + 3, VerdictStep(b.verdict)));
    var n, steps := |StepsOf(t.reviews, id)|, StepsOf(two.reviews, id);
    assert steps[n].number == steps[n + 2].number == max + 1;
  }
}
