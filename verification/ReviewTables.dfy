// The rows behind a review, and what each store operation does to them.
module ReviewTables {
  import opened Strings
  import opened Sorting
  import opened Findings
  import opened PatchApply

  // --- reviews, their findings and their steps ---

  datatype ReviewStatus = Planned | Completed

  datatype ReviewRow = ReviewRow(
    projectId: nat,
    userId: nat,
    status: ReviewStatus,
    added: Dict<set<nat>>,
    filesChanged: nat,
    blocking: Option<bool>,
    reason: Option<VerdictReason>)

  datatype FindingRow = FindingRow(reviewId: nat, finding: Finding)

  datatype StepRow = StepRow(reviewId: nat, number: nat, payload: Payload)

  datatype Payload =
    | PlanStep(filesChanged: nat, ruleset: string, deterministic: nat, suppressed: nat, fixedConfirmed: nat,
               regressed: nat, droppedOverCap: nat, platform: string)
    | FindingsStep(submitted: nat, accepted: nat, outOfScope: nat, duplicates: int, droppedOverCap: nat, resubmit: bool)
    | VerdictStep(verdict: Verdict)
    | ResponsesStep(responses: seq<(Disposition, string)>, author: string, muted: nat)

  /** The three tables of reviews. Rows stand in the order of their ids; the review with id `i` is row `i - 1`. */
  datatype Reviews = Reviews(reviews: seq<ReviewRow>, findings: seq<FindingRow>, steps: seq<StepRow>)

  predicate Exists(r: Reviews, id: nat) {
    1 <= id <= |r.reviews|
  }

  function RowOf(r: Reviews, id: nat): ReviewRow
    requires Exists(r, id)
  {
    r.reviews[id - 1]
  }

  /** No column holds `regressed`: a finding read back has forgotten it. */
  function Forget(f: Finding): Finding {
    f.(regressed := false)
  }

  function ToRow(id: nat): Finding -> FindingRow {
    (f: Finding) => FindingRow(id, Forget(f))
  }

  function FromRow(row: FindingRow): Finding {
    row.finding
  }

  predicate RowIsOf(row: FindingRow, id: nat) {
    row.reviewId == id
  }

  function OfReview(id: nat): FindingRow -> bool {
    (row: FindingRow) => RowIsOf(row, id)
  }

  predicate IsAgentRow(row: FindingRow, id: nat) {
    row.reviewId == id && IsAgent(row.finding)
  }

  function NotAgentOf(id: nat): FindingRow -> bool {
    (row: FindingRow) => !IsAgentRow(row, id)
  }

  function StepOf(id: nat): StepRow -> bool {
    (s: StepRow) => s.reviewId == id
  }

  function Created(r: Reviews, projectId: nat, userId: nat, added: Dict<set<nat>>, filesChanged: nat): Reviews {
    r.(reviews := r.reviews + [ReviewRow(projectId, userId, Planned, added, filesChanged, None, None)])
  }

  function FindingsAdded(r: Reviews, id: nat, findings: seq<Finding>): Reviews {
    r.(findings := r.findings + Map(ToRow(id), findings))
  }

  function AgentReplaced(r: Reviews, id: nat, findings: seq<Finding>): Reviews {
    FindingsAdded(r.(findings := Filter(NotAgentOf(id), r.findings)), id, findings)
  }

  function FindingsOf(r: Reviews, id: nat): seq<Finding> {
    Map(FromRow, Filter(OfReview(id), r.findings))
  }

  function StepsOf(r: Reviews, id: nat): seq<StepRow> {
    Filter(StepOf(id), r.steps)
  }

  function MaxNumber(steps: seq<StepRow>): nat {
    if steps == [] then 0
    else
      var rest := MaxNumber(steps[..|steps| - 1]);
      if steps[|steps| - 1].number > rest then steps[|steps| - 1].number else rest
  }

  function StepAdded(r: Reviews, id: nat, payload: Payload): Reviews {
    r.(steps := r.steps + [StepRow(id, MaxNumber(StepsOf(r, id)) + 1, payload)])
  }

  function Ruled(row: ReviewRow, verdict: Verdict): ReviewRow {
    row.(status := Completed, blocking := Some(verdict.blocking), reason := Some(verdict.reason))
  }

  function Complete(r: Reviews, id: nat, verdict: Verdict): Reviews {
    if Exists(r, id) then r.(reviews := r.reviews[id - 1 := Ruled(r.reviews[id - 1], verdict)]) else r
  }

  function AddedOfReview(r: Reviews, id: nat): Dict<set<nat>> {
    if Exists(r, id) then RowOf(r, id).added else []
  }

  // --- dispositions ---

  datatype DispositionRow = DispositionRow(projectId: nat, fingerprint: string, disposition: Disposition, note: string,
                                           setBy: nat, setAt: string, revoked: bool)

  /** A row that still answers for `fingerprint`. */
  predicate Stands(row: DispositionRow, projectId: nat, fingerprint: string) {
    row.projectId == projectId && row.fingerprint == fingerprint && !row.revoked
  }

  /** A row that still answers for one of `fingerprints`. */
  predicate StandsAmong(row: DispositionRow, projectId: nat, fingerprints: set<string>) {
    row.projectId == projectId && row.fingerprint in fingerprints && !row.revoked
  }

  function Revoking(projectId: nat, fingerprints: set<string>): DispositionRow -> DispositionRow {
    (row: DispositionRow) => if StandsAmong(row, projectId, fingerprints) then row.(revoked := true) else row
  }

  function Confirming(projectId: nat, fingerprints: set<string>): DispositionRow -> DispositionRow {
    (row: DispositionRow) => if StandsAmong(row, projectId, fingerprints) then row.(disposition := ConfirmedFixed) else row
  }

  function Revoked(rows: seq<DispositionRow>, projectId: nat, fingerprints: set<string>): seq<DispositionRow> {
    Map(Revoking(projectId, fingerprints), rows)
  }

  function Confirmed(rows: seq<DispositionRow>, projectId: nat, fingerprints: set<string>): seq<DispositionRow> {
    Map(Confirming(projectId, fingerprints), rows)
  }

  /** A new answer: whatever stood for the fingerprint is revoked and the answer appended. */
  function Answered(rows: seq<DispositionRow>, row: DispositionRow): seq<DispositionRow> {
    Revoked(rows, row.projectId, {row.fingerprint}) + [row]
  }

  /** The row answering for a fingerprint: the last that stands. */
  function StandingRow(rows: seq<DispositionRow>, projectId: nat, fingerprint: string): (r: Option<DispositionRow>)
    ensures r.Some? ==> r.value in rows && Stands(r.value, projectId, fingerprint)
    ensures r.None? ==> forall k :: 0 <= k < |rows| ==> !Stands(rows[k], projectId, fingerprint)
  {
    if rows == [] then None
    else if Stands(rows[|rows| - 1], projectId, fingerprint) then Some(rows[|rows| - 1])
    else StandingRow(rows[..|rows| - 1], projectId, fingerprint)
  }

  function AnswerOf(users: nat -> string, row: DispositionRow): ActiveDisposition {
    ActiveDisposition(row.fingerprint, row.disposition, row.note, users(row.setBy), row.setAt)
  }

  /** The standing answers for some fingerprints of a project. */
  function Active(users: nat -> string, rows: seq<DispositionRow>, projectId: nat, fingerprints: set<string>): Answers {
    map fp | fp in fingerprints && StandingRow(rows, projectId, fp).Some? ::
      AnswerOf(users, StandingRow(rows, projectId, fp).value)
  }

  /** The fingerprints a `fixed` claim stands for. */
  function Claimed(rows: seq<DispositionRow>, projectId: nat): set<string> {
    set row | row in rows && row.projectId == projectId && row.disposition.Fixed? && !row.revoked :: row.fingerprint
  }

  // --- the stores ---

  class ReviewStore {
    var reviews: seq<ReviewRow>
    var findings: seq<FindingRow>
    var steps: seq<StepRow>

    function Rows(): Reviews
      reads this
    {
      Reviews(reviews, findings, steps)
    }

    constructor ()
      ensures Rows() == Reviews([], [], [])
    {
      reviews, findings, steps := [], [], [];
    }

    method Create(projectId: nat, userId: nat, added: Dict<set<nat>>, filesChanged: nat) returns (id: nat)
      modifies this
      ensures Rows() == Created(old(Rows()), projectId, userId, added, filesChanged)
      ensures id == |old(reviews)| + 1
    {
      reviews := reviews + [ReviewRow(projectId, userId, Planned, added, filesChanged, None, None)];
      id := |reviews|;
    }

    method AddFindings(id: nat, batch: seq<Finding>)
      modifies this
      ensures Rows() == FindingsAdded(old(Rows()), id, batch)
    {
      ghost var before := findings;
      for k := 0 to |batch|
        invariant findings == before + Map(ToRow(id), batch[..k])
        invariant reviews == old(reviews) && steps == old(steps)
      {
        findings := findings + [FindingRow(id, batch[k].(regressed := false))];
        MapNext(ToRow(id), batch, k);
      }
      assert batch[..|batch|] == batch;
    }

    method ReplaceAgentFindings(id: nat, batch: seq<Finding>)
      modifies this
      ensures Rows() == AgentReplaced(old(Rows()), id, batch)
    {
      ghost var before := findings;
      var kept := [];
      for k := 0 to |findings|
        invariant findings == before && reviews == old(reviews) && steps == old(steps)
        invariant kept == Filter(NotAgentOf(id), before[..k])
      {
        FilterNext(NotAgentOf(id), before, k);
        if !(findings[k].reviewId == id && IsAgent(findings[k].finding)) {
          kept := kept + [findings[k]];
        }
      }
      assert before[..|before|] == before;
      findings := kept;
      AddFindings(id, batch);
    }

    method ReadFindings(id: nat) returns (found: seq<Finding>)
      ensures found == FindingsOf(Rows(), id)
    {
      found := [];
      for k := 0 to |findings|
        invariant found == Map(FromRow, Filter(OfReview(id), findings[..k]))
      {
        FilterNext(OfReview(id), findings, k);
        if findings[k].reviewId == id {
          found := found + [findings[k].finding];
        }
      }
      assert findings[..|findings|] == findings;
    }

    method AddStep(id: nat, payload: Payload)
      modifies this
      ensures Rows() == StepAdded(old(Rows()), id, payload)
    {
      hide MaxNumber;
      var last: nat := 0;
      NoSteps();
      for k := 0 to |steps|
        invariant steps == old(steps) && reviews == old(reviews) && findings == old(findings)
        invariant last == MaxNumber(Filter(StepOf(id), steps[..k]))
      {
        FilterNext(StepOf(id), steps, k);
        if steps[k].reviewId == id {
          MaxNumberNext(Filter(StepOf(id), steps[..k]), steps[k]);
          last := if steps[k].number > last then steps[k].number else last;
        }
      }
      assert steps[..|steps|] == steps;
      steps := steps + [StepRow(id, last + 1, payload)];
    }

    method CompleteReview(id: nat, verdict: Verdict)
      modifies this
      ensures Rows() == Complete(old(Rows()), id, verdict)
    {
      if 1 <= id <= |reviews| {
        var row := reviews[id - 1];
        reviews := reviews[id - 1 := row.(status := Completed, blocking := Some(verdict.blocking),
                                          reason := Some(verdict.reason))];
      }
    }
  }

  lemma NoSteps()
    ensures MaxNumber([]) == 0
  {
  }

  lemma MaxNumberNext(steps: seq<StepRow>, s: StepRow)
    ensures MaxNumber(steps + [s]) == if s.number > MaxNumber(steps) then s.number else MaxNumber(steps)
  {
    assert (steps + [s])[..|steps|] == steps;
  }

  class DispositionStore {
    var rows: seq<DispositionRow>

    constructor ()
      ensures rows == []
    {
      rows := [];
    }

    /** Updates every standing row of the fingerprints. */
    method Settle(projectId: nat, fingerprints: set<string>, confirm: bool)
      modifies this
      ensures rows == if confirm then Confirmed(old(rows), projectId, fingerprints)
                      else Revoked(old(rows), projectId, fingerprints)
    {
      var change := if confirm then Confirming(projectId, fingerprints) else Revoking(projectId, fingerprints);
      var settled := [];
      for k := 0 to |rows|
        invariant rows == old(rows) && settled == Map(change, rows[..k])
      {
        MapNext(change, rows, k);
        var row := rows[k];
        if row.projectId == projectId && row.fingerprint in fingerprints && !row.revoked {
          row := if confirm then row.(disposition := ConfirmedFixed) else row.(revoked := true);
        }
        settled := settled + [row];
      }
      assert rows[..|rows|] == rows;
      rows := settled;
    }

    method Set(projectId: nat, fingerprint: string, disposition: Disposition, note: string, userId: nat, day: string)
      modifies this
      ensures rows == Answered(old(rows), DispositionRow(projectId, fingerprint, disposition, note, userId, day, false))
    {
      Settle(projectId, {fingerprint}, false);
      rows := rows + [DispositionRow(projectId, fingerprint, disposition, note, userId, day, false)];
    }

    method ReadActive(users: nat -> string, projectId: nat, fingerprints: set<string>) returns (active: Answers)
      ensures active == Active(users, rows, projectId, fingerprints)
    {
      active := map[];
      for k := 0 to |rows|
        invariant active == Active(users, rows[..k], projectId, fingerprints)
      {
        var row := rows[k];
        ActiveNext(users, rows[..k], row, projectId, fingerprints);
        assert rows[..k + 1] == rows[..k] + [row];
        if row.projectId == projectId && row.fingerprint in fingerprints && !row.revoked {
          active := active[row.fingerprint := AnswerOf(users, row)];
        }
      }
      assert rows[..|rows|] == rows;
    }

    method ReadClaimed(projectId: nat) returns (claimed: set<string>)
      ensures claimed == Claimed(rows, projectId)
    {
      claimed := {};
      for k := 0 to |rows|
        invariant claimed == Claimed(rows[..k], projectId)
      {
        var row := rows[k];
        assert rows[..k + 1] == rows[..k] + [row];
        if row.projectId == projectId && row.disposition.Fixed? && !row.revoked {
          claimed := claimed + {row.fingerprint};
        }
      }
      assert rows[..|rows|] == rows;
    }
  }

  lemma ActiveNext(users: nat -> string, rows: seq<DispositionRow>, row: DispositionRow, projectId: nat,
                   fingerprints: set<string>)
    ensures Active(users, rows + [row], projectId, fingerprints)
         == if StandsAmong(row, projectId, fingerprints)
            then Active(users, rows, projectId, fingerprints)[row.fingerprint := AnswerOf(users, row)]
            else Active(users, rows, projectId, fingerprints)
  {
    var next := rows + [row];
    assert next[..|next| - 1] == rows;
    forall fp
      ensures StandingRow(next, projectId, fp)
           == if Stands(row, projectId, fp) then Some(row) else StandingRow(rows, projectId, fp)
    {
    }
  }
}
