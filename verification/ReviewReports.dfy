// What a review says of each finding handed in, finding by finding: the tools' and the agent's.
module ReviewReports {
  import opened Strings
  import opened Sorting
  import opened UnifiedDiff
  import opened PatchApply
  import opened Findings
  import opened Suppression
  import opened ReviewTables
  import opened ReviewProtocol
  import opened ReviewFacts
  import opened ReviewVersions
  import opened ReviewVerdicts
  import Dedup

  // --- the answers that stand, row by row ---

  /** Row `k` is the last that still answers for the fingerprint. */
  ghost predicate LastAnswer(rows: seq<DispositionRow>, projectId: nat, fp: string, k: int) {
    && 0 <= k < |rows|
    && rows[k].projectId == projectId && rows[k].fingerprint == fp && !rows[k].revoked
    && forall j :: k < j < |rows| && rows[j].projectId == projectId && rows[j].fingerprint == fp ==> rows[j].revoked
  }

  /** The answer standing for the fingerprint is a dismissal or an acceptance. */
  ghost predicate Settles(rows: seq<DispositionRow>, projectId: nat, fp: string) {
    exists k :: LastAnswer(rows, projectId, fp, k) && (rows[k].disposition == Dismissed || rows[k].disposition == Accepted)
  }

  /** A claim that the fingerprint is fixed stands. */
  ghost predicate IsClaimed(rows: seq<DispositionRow>, projectId: nat, fp: string) {
    exists k :: 0 <= k < |rows| && rows[k].projectId == projectId && rows[k].fingerprint == fp && !rows[k].revoked
                && rows[k].disposition == Fixed
  }

  lemma {:induction false} StandingIsLast(rows: seq<DispositionRow>, projectId: nat, fp: string)
    ensures forall k :: LastAnswer(rows, projectId, fp, k) ==> StandingRow(rows, projectId, fp) == Some(rows[k])
    ensures StandingRow(rows, projectId, fp).Some? ==> exists k :: LastAnswer(rows, projectId, fp, k)
    decreases |rows|
  {
    if rows != [] {
      var front, last := rows[..|rows| - 1], |rows| - 1;
      if Stands(rows[last], projectId, fp) {
        assert LastAnswer(rows, projectId, fp, last);
      } else {
        StandingIsLast(front, projectId, fp);
        forall k | LastAnswer(rows, projectId, fp, k)
          ensures LastAnswer(front, projectId, fp, k)
        {
          assert forall j :: 0 <= j < |front| ==> front[j] == rows[j];
        }
        if k :| LastAnswer(front, projectId, fp, k) {
          assert LastAnswer(rows, projectId, fp, k);
        }
      }
    }
  }

  lemma MutedIsSettled(users: nat -> string, rows: seq<DispositionRow>, projectId: nat, f: Finding, among: set<string>)
    requires f.fingerprint in among
    ensures Muted(f, Active(users, rows, projectId, among)) <==> Settles(rows, projectId, f.fingerprint)
  {
    hide StandingRow, LastAnswer;
    StandingIsLast(rows, projectId, f.fingerprint);
  }

  lemma ClaimedIsClaimed(rows: seq<DispositionRow>, projectId: nat, fp: string)
    ensures fp in Claimed(rows, projectId) <==> IsClaimed(rows, projectId, fp)
  {
    if fp in Claimed(rows, projectId) {
      var row :| row in rows && row.projectId == projectId && row.disposition.Fixed? && !row.revoked && row.fingerprint == fp;
      var k :| 0 <= k < |rows| && rows[k] == row;
    }
    if k :| 0 <= k < |rows| && rows[k].projectId == projectId && rows[k].fingerprint == fp && !rows[k].revoked
            && rows[k].disposition == Fixed {
      assert rows[k] in rows;
    }
  }

  /** What a muted finding says of the answer: which, by whom, when and why, in three hundred characters. */
  ghost predicate Quotes(env: Env, row: DispositionRow, reason: Option<string>) {
    var text := (if row.disposition == Dismissed then "dismissed" else "accepted") + " by " + env.users(row.setBy)
                + " on " + row.setAt + ": " + row.note;
    reason.Some? && reason.value <= text && (|reason.value| == 300 || reason.value == text)
  }

  /** `f` is what the answers that stand make of `g`. */
  ghost predicate IsAnswered(env: Env, projectId: nat, rows: seq<DispositionRow>, g: Finding, f: Finding) {
    var settled := Settles(rows, projectId, g.fingerprint);
    && f == g.(suppressed := f.suppressed, reason := f.reason)
    && (!f.suppressed <==> !g.suppressed && !settled)
    && (g.suppressed || !settled ==> f == g)
    && (!g.suppressed && settled ==> exists k :: LastAnswer(rows, projectId, g.fingerprint, k) && Quotes(env, rows[k], f.reason))
  }

  lemma AppliedIsAnswered(env: Env, rows: seq<DispositionRow>, projectId: nat, g: Finding, among: set<string>)
    requires g.fingerprint in among
    ensures IsAnswered(env, projectId, rows, g, ApplyTo(g, Active(env.users, rows, projectId, among)))
  {
    hide StandingRow, Quotes, Settles;
    var active := Active(env.users, rows, projectId, among);
    MutedIsSettled(env.users, rows, projectId, g, among);
    if !g.suppressed && Muted(g, active) {
      StandingIsLast(rows, projectId, g.fingerprint);
      var row := StandingRow(rows, projectId, g.fingerprint).value;
      var j :| LastAnswer(rows, projectId, g.fingerprint, j);
      assert row == rows[j] && active[g.fingerprint] == AnswerOf(env.users, row);
      ReasonQuotes(env, row);
    }
  }

  lemma ReasonQuotes(env: Env, row: DispositionRow)
    requires Muting(row.disposition)
    ensures Quotes(env, row, Some(SuppressionReason(AnswerOf(env.users, row))))
  {
  }

  // --- the tools' findings ---

  /** What the tools find in a change. */
  function ToolFindings(env: Env, projectId: nat, change: Change): seq<Finding> {
    env.tools(env.config(projectId), change, Parse(change.diff), AddedLines(Parse(change.diff)))
  }

  /** A finding that lies in the change is about the declaration of the method the line `g` points at overrides. */
  ghost predicate HasTwin(p: Patterns, files: Dict<string>, added: Dict<set<nat>>, findings: seq<Finding>, g: Finding) {
    exists h :: h in findings && InChange(h, added) && TwinOf(p, files, g, h)
  }

  ghost predicate NamesOne(p: Patterns, files: Dict<string>, added: Dict<set<nat>>, findings: seq<Finding>, g: Finding,
                           reason: Option<string>)
  {
    exists h :: h in findings && InChange(h, added) && TwinOf(p, files, g, h)
      && (forall o :: o in findings && InChange(o, added) && TwinOf(p, files, g, o) ==> Dedup.CodePointsLe(h.file, o.file))
      && reason == Some("the same method is reported where " + h.file + " declares it, and one signature is one decision")
  }

  /** `f` is what the change and the source make of `g`: active exactly when it was, it lies in the change, nobody silenced
      it and it is no override twin; and it says why not. */
  ghost predicate Sifted(p: Patterns, files: Dict<string>, added: Dict<set<nat>>, findings: seq<Finding>, g: Finding,
                         f: Finding)
  {
    && f == g.(suppressed := f.suppressed, reason := f.reason)
    && (!f.suppressed <==>
          !g.suppressed && InChange(g, added) && !Silenced(p, files, g) && !HasTwin(p, files, added, findings, g))
    && (if Silenced(p, files, g) then f.reason == SourceSays(p, files, g)
        else if !InChange(g, added) then f.reason == Some("outside the diff's changed lines (pre-existing code)")
        else if g.suppressed || !HasTwin(p, files, added, findings, g) then f.reason == g.reason
        else NamesOne(p, files, added, findings, g, f.reason))
  }

  /** Scoping moves no finding: what the source says of it stays the same. */
  lemma ScopedPlace(p: Patterns, files: Dict<string>, added: Dict<set<nat>>, g: Finding, h: Finding)
    ensures var a, b := Scoped(g, added), Scoped(h, added);
      && SourceSays(p, files, a) == SourceSays(p, files, g) && Silenced(p, files, a) == Silenced(p, files, g)
      && (TwinOf(p, files, a, b) <==> InChange(h, added) && TwinOf(p, files, g, h))
  {
    hide InScope, InChange, HasLines, Above;
    ScopeIsChange(h, added);
    Stays(p, files, g, Scoped(g, added));
    Stays(p, files, h, Scoped(h, added));
    hide Unwritten, EntryPoint, Deliberate, OnMethod, OnOverride;
  }

  lemma Stays(p: Patterns, files: Dict<string>, f: Finding, g: Finding)
    requires f.file == g.file && f.line == g.line
    ensures Unwritten(p, files, f) == Unwritten(p, files, g) && EntryPoint(p, files, f) == EntryPoint(p, files, g)
    ensures Deliberate(p, files, f) == Deliberate(p, files, g) && OnOverride(p, files, f) == OnOverride(p, files, g)
    ensures forall name :: OnMethod(p, files, f, name) == OnMethod(p, files, g, name)
  {
    hide HasLines, Above;
  }

  lemma ActionableSifts(p: Patterns, files: Dict<string>, added: Dict<set<nat>>, findings: seq<Finding>, k: nat)
    requires k < |findings|
    ensures Sifted(p, files, added, findings, findings[k], Actionable(p, files, ScopedAll(findings, added))[k])
  {
    var scoped, g := ScopedAll(findings, added), findings[k];
    var reason := Actionable(p, files, scoped)[k].reason;
    hide Actionable, InScope, InChange, TwinOf, Silenced, SourceSays;
    ActionableKeeps(p, files, scoped, k);
    ScopeIsChange(g, added);
    ScopedPlace(p, files, added, g, g);
    ScopedTwins(p, files, added, findings, k, reason);
  }

  lemma ScopedTwins(p: Patterns, files: Dict<string>, added: Dict<set<nat>>, findings: seq<Finding>, k: nat,
                    reason: Option<string>)
    requires k < |findings|
    ensures var scoped := ScopedAll(findings, added);
      && (IsTwin(p, files, scoped, scoped[k]) <==> HasTwin(p, files, added, findings, findings[k]))
      && (NamesTwin(p, files, scoped, scoped[k], reason) ==> NamesOne(p, files, added, findings, findings[k], reason))
  {
    hide Scoped, InChange, TwinOf, Dedup.CodePointsLe;
    var scoped, g := ScopedAll(findings, added), findings[k];
    forall h | h in findings
      ensures Scoped(h, added) in scoped && Scoped(h, added).file == h.file
      ensures TwinOf(p, files, scoped[k], Scoped(h, added)) <==> InChange(h, added) && TwinOf(p, files, g, h)
    {
      var j :| 0 <= j < |findings| && findings[j] == h;
      assert scoped[j] == Scoped(h, added);
      ScopedPlace(p, files, added, g, h);
      ScopedFile(h, added);
    }
    forall s | s in scoped
      ensures exists h :: h in findings && s == Scoped(h, added)
    {
      var j :| 0 <= j < |scoped| && scoped[j] == s;
      assert s == Scoped(findings[j], added);
    }
  }

  lemma ScopedFile(f: Finding, added: Dict<set<nat>>)
    ensures Scoped(f, added).file == f.file
  {
  }

  // --- what an examination reports ---

  /** `f` is what a review makes of the tools' finding `g`: redacted and identified from what is left of the line; active
      exactly when the tool left it so, it lies in the change, nobody silenced it, it is no override twin and no dismissal
      or acceptance stands for it; and saying why when it is muted. */
  ghost predicate Judged(env: Env, projectId: nat, change: Change, rows: seq<DispositionRow>, g: Finding, f: Finding) {
    var tools, added, p, files := ToolFindings(env, projectId, change), AddedLines(Parse(change.diff)), env.patterns, change.files;
    var quoted := env.redact(g.quotedLine);
    var fp := env.fingerprint(g.ruleId, g.file, quoted);
    && f == g.(quotedLine := quoted, fingerprint := fp, suppressed := f.suppressed, reason := f.reason,
               regressed := f.regressed)
    && (!f.suppressed <==>
          && !g.suppressed && InChange(g, added) && !Silenced(p, files, g) && !HasTwin(p, files, added, tools, g)
          && !Settles(rows, projectId, fp))
    && (if Silenced(p, files, g) then f.reason == SourceSays(p, files, g)
        else if !InChange(g, added) then f.reason == Some("outside the diff's changed lines (pre-existing code)")
        else if g.suppressed then f.reason == g.reason
        else if HasTwin(p, files, added, tools, g) then NamesOne(p, files, added, tools, g, f.reason)
        else if Settles(rows, projectId, fp) then exists k :: LastAnswer(rows, projectId, fp, k) && Quotes(env, rows[k], f.reason)
        else f.reason == g.reason)
  }

  /** And it is said to have come back exactly when a claim stands that it is fixed. */
  ghost predicate Reports(env: Env, projectId: nat, change: Change, rows: seq<DispositionRow>, g: Finding, f: Finding) {
    Judged(env, projectId, change, rows, g, f) && (f.regressed <==> IsClaimed(rows, projectId, f.fingerprint))
  }

  lemma AnsweredIsJudged(env: Env, projectId: nat, change: Change, rows: seq<DispositionRow>, g: Finding, s: Finding,
                         f: Finding)
    requires Sifted(env.patterns, change.files, AddedLines(Parse(change.diff)), ToolFindings(env, projectId, change), g, s)
    requires IsAnswered(env, projectId, rows, Identified(env, s), f)
    ensures Judged(env, projectId, change, rows, g, f) && f.regressed == g.regressed
  {
    hide Parse, AddedLines, ToolFindings, Silenced, SourceSays, InChange, HasTwin, NamesOne, Settles, Quotes;
  }

  lemma SiftedAll(p: Patterns, files: Dict<string>, added: Dict<set<nat>>, tools: seq<Finding>)
    ensures var sifted := Actionable(p, files, ScopedAll(tools, added));
      |sifted| == |tools| && forall k :: 0 <= k < |tools| ==> Sifted(p, files, added, tools, tools[k], sifted[k])
  {
    var sifted := Actionable(p, files, ScopedAll(tools, added));
    assert |sifted| == |tools|;
    hide Actionable, ScopedAll, Sifted;
    forall k | 0 <= k < |tools|
      ensures Sifted(p, files, added, tools, tools[k], sifted[k])
    {
      ActionableSifts(p, files, added, tools, k);
    }
  }

  lemma SiftedRule(p: Patterns, files: Dict<string>, added: Dict<set<nat>>, tools: seq<Finding>, g: Finding, s: Finding)
    requires Sifted(p, files, added, tools, g, s)
    ensures s.ruleId == g.ruleId
  {
    hide Silenced, SourceSays, InChange, HasTwin, NamesOne;
  }

  /** The places of the tools' findings whose rule the project has not disabled. */
  ghost predicate EnabledPlaces(config: Config, tools: seq<Finding>, from: seq<nat>) {
    Climbs(from) && forall i: nat :: i in from <==> i < |tools| && tools[i].ruleId !in config.disabled
  }

  /** Every finding found comes from one of the tools', place by place. */
  lemma FoundFrom(env: Env, projectId: nat, change: Change, rows: seq<DispositionRow>) returns (from: seq<nat>)
    ensures EnabledPlaces(env.config(projectId), ToolFindings(env, projectId, change), from)
    ensures var found, tools := Found(env, env.config(projectId), projectId, change, rows), ToolFindings(env, projectId, change);
      && |found| == |from|
      && (forall k :: 0 <= k < |from| ==> from[k] < |tools|)
      && (forall k :: 0 <= k < |from| ==> Judged(env, projectId, change, rows, tools[from[k]], found[k]))
      && (forall k :: 0 <= k < |from| ==> found[k].regressed == tools[from[k]].regressed)
  {
    var config, tools, added := env.config(projectId), ToolFindings(env, projectId, change), AddedLines(Parse(change.diff));
    var sifted := Actionable(env.patterns, change.files, ScopedAll(tools, added));
    var kept := Filter(Enabled(config), sifted);
    var identified := Map(Identifying(env), kept);
    var found := Answer(env, rows, projectId, identified);
    assert found == Found(env, config, projectId, change, rows);
    assert |found| == |identified|;
    from := Places(Enabled(config), sifted);
    FilterFrom(Enabled(config), sifted);
    SiftedAll(env.patterns, change.files, added, tools);
    hide Parse, AddedLines, Actionable, ScopedAll, Filter, Places, Climbs, Sifted, IsAnswered, Answer, Found, ToolFindings, Judged;
    forall i: nat
      ensures i in from <==> i < |tools| && tools[i].ruleId !in config.disabled
    {
      if i < |tools| {
        SiftedRule(env.patterns, change.files, added, tools, tools[i], sifted[i]);
      }
    }
    forall k | 0 <= k < |from|
      ensures Judged(env, projectId, change, rows, tools[from[k]], found[k]) && found[k].regressed == tools[from[k]].regressed
    {
      assert identified[k].fingerprint in Fingerprints(identified);
      AppliedIsAnswered(env, rows, projectId, identified[k], Fingerprints(identified));
      assert identified[k] == Identified(env, sifted[from[k]]);
      AnsweredIsJudged(env, projectId, change, rows, tools[from[k]], sifted[from[k]], found[k]);
    }
  }

  /** What an examination says of each finding of the tools: of those of enabled rules, in the tools' order, each is reported
      as it should be; the cap cuts what is reported by severity; and a claim that a finding is fixed is confirmed when
      nothing reported has that fingerprint, and contradicted when something has. */
  lemma ExamineReports(env: Env, actor: Principal, change: Change, rows: seq<DispositionRow>)
    returns (reported: seq<Finding>, from: seq<nat>, dropped: seq<Finding>)
    requires Examine(env, actor, change, rows).Ok?
    ensures var x := Examine(env, actor, change, rows).value;
      var tools := ToolFindings(env, x.projectId, change);
      && actor.projectId == Some(x.projectId)
      && EnabledPlaces(env.config(x.projectId), tools, from)
      && |reported| == |from|
      && (forall k :: 0 <= k < |from| ==> from[k] < |tools|)
      && (forall k :: 0 <= k < |from| ==> Reports(env, x.projectId, change, rows, tools[from[k]], reported[k]))
      && CutTo(reported, x.findings, dropped, env.maxFindings) && |dropped| == x.dropped
      && (forall fp :: fp in x.confirmed
            <==> IsClaimed(rows, x.projectId, fp) && forall k :: 0 <= k < |reported| ==> reported[k].fingerprint != fp)
      && (forall fp :: fp in x.regressed
            <==> IsClaimed(rows, x.projectId, fp) && exists k :: 0 <= k < |reported| && reported[k].fingerprint == fp)
  {
    var projectId := actor.projectId.value;
    var found := Found(env, env.config(projectId), projectId, change, rows);
    var tools := ToolFindings(env, projectId, change);
    from := FoundFrom(env, projectId, change, rows);
    var regressed := Claimed(rows, projectId) * Fingerprints(found);
    reported := Map(Regressing(regressed), found);
    dropped := Cap(reported, env.maxFindings).1;
    hide Found, Parse, AddedLines, Cap, Claimed, IsClaimed, Judged, CutTo, EnabledPlaces, ToolFindings;
    CapCuts(reported, env.maxFindings);
    forall fp: string
      ensures fp in Claimed(rows, projectId) <==> IsClaimed(rows, projectId, fp)
    {
      ClaimedIsClaimed(rows, projectId, fp);
    }
    forall k | 0 <= k < |from|
      ensures Reports(env, projectId, change, rows, tools[from[k]], reported[k])
    {
      FoundIsReported(env, projectId, change, rows, tools[from[k]], found, k);
    }
  }

  lemma FoundIsReported(env: Env, projectId: nat, change: Change, rows: seq<DispositionRow>, g: Finding, found: seq<Finding>,
                        k: nat)
    requires k < |found| && Judged(env, projectId, change, rows, g, found[k]) && !found[k].regressed
    ensures var regressed := Claimed(rows, projectId) * Fingerprints(found);
      Reports(env, projectId, change, rows, g, Regressing(regressed)(found[k]))
  {
    hide Parse, AddedLines, ToolFindings, Silenced, SourceSays, InChange, HasTwin, NamesOne, Settles, Quotes, Claimed, IsClaimed;
    ClaimedIsClaimed(rows, projectId, found[k].fingerprint);
    assert found[k].fingerprint in Fingerprints(found);
  }

  // --- what a submission reports ---

  /** `m` is what the merge makes of the agent's finding `g`, behind what it made of those before: redacted and identified;
      muted when it lies outside the change, when an active finding of the tools already tells it, and when an earlier
      one that is still active does; and otherwise active. */
  ghost predicate MergedAs(env: Env, added: Dict<set<nat>>, det: seq<Finding>, g: Finding, m: Finding, earlier: seq<Finding>) {
    var quoted := env.redact(g.quotedLine);
    var c := g.(quotedLine := quoted, fingerprint := env.fingerprint(g.ruleId, g.file, quoted));
    m == if !InChange(g, added) then
           c.(suppressed := true, reason := Some("outside the diff's changed lines (pre-existing code)"))
         else if Dedup.ToldBy(c, det) then c.(suppressed := true, reason := Some("already reported by a deterministic rule"))
         else if Dedup.SpokenFor(c, earlier) then
           c.(suppressed := true, reason := Some("duplicate of another finding in this review"))
         else c
  }

  /** `merged` is what the merge makes of the agent's findings that stand in the places `from`, and `reported` what the
      answers that stand make of those. */
  ghost predicate SubmissionReports(env: Env, projectId: nat, rows: seq<DispositionRow>, added: Dict<set<nat>>,
                                    det: seq<Finding>, agent: seq<Finding>, from: seq<nat>, merged: seq<Finding>,
                                    reported: seq<Finding>)
  {
    && |merged| == |reported| == |from|
    && (forall k :: 0 <= k < |from| ==> from[k] < |agent|)
    && (forall k :: 0 <= k < |from| ==> MergedAs(env, added, det, agent[from[k]], merged[k], merged[..k]))
    && (forall k :: 0 <= k < |from| ==> IsAnswered(env, projectId, rows, merged[k], reported[k]))
  }

  lemma RightIsMerged(env: Env, added: Dict<set<nat>>, det: seq<Finding>, g: Finding, m: Finding, earlier: seq<Finding>)
    requires !g.suppressed && Dedup.Right(det, Identified(env, Scoped(g, added)), m, earlier)
    ensures MergedAs(env, added, det, g, m, earlier)
  {
    ScopeIsChange(g, added);
    hide InChange, InScope, Dedup.ToldBy, Dedup.SpokenFor;
  }

  /** What is taken of the agent's findings, in scope and identified, place by place. */
  lemma ScopedFrom(env: Env, config: Config, added: Dict<set<nat>>, agent: seq<Finding>) returns (from: seq<nat>)
    ensures EnabledPlaces(config, agent, from)
    ensures var scoped := ScopedAgent(env, config, added, agent);
      && |scoped| == |from|
      && (forall k :: 0 <= k < |from| ==> from[k] < |agent|)
      && (forall k :: 0 <= k < |from| ==> scoped[k] == Identified(env, Scoped(agent[from[k]], added)))
  {
    var moved := ScopedAll(agent, added);
    from := Places(Enabled(config), moved);
    FilterFrom(Enabled(config), moved);
    hide InScope, Filter, Places, Climbs;
  }

  lemma MergedHas(det: seq<Finding>, scoped: seq<Finding>, k: nat)
    requires k < |scoped|
    ensures var out := Dedup.Decided(scoped, det, Dedup.ActiveKeys(det));
      out[k].fingerprint in Fingerprints(Dedup.Merged(det, scoped))
  {
    var out := Dedup.Decided(scoped, det, Dedup.ActiveKeys(det));
    hide Dedup.Decided, Sort;
    SortPermutes(Dedup.MergeOrder, det + out);
    SameMembers(Dedup.Merged(det, scoped), det + out);
    assert (det + out)[|det| + k] == out[k];
  }

  lemma JudgeReports(env: Env, rows: seq<DispositionRow>, projectId: nat, config: Config, det: seq<Finding>,
                     added: Dict<set<nat>>, agent: seq<AgentFinding>, resubmit: bool)
    returns (from: seq<nat>, merged: seq<Finding>, reported: seq<Finding>)
    requires AllDeterministic(det)
    ensures var taken: seq<Finding> := Take(agent, config.policy.maxAgentFindings);
      && EnabledPlaces(config, taken, from)
      && SubmissionReports(env, projectId, rows, added, det, taken, from, merged, reported)
      && multiset(Judge(env, rows, projectId, config, det, added, agent, resubmit).agentFinal) == multiset(reported)
  {
    var taken := Take(agent, config.policy.maxAgentFindings);
    var scoped := ScopedAgent(env, config, added, taken);
    var all := Dedup.Merged(det, scoped);
    var active := Active(env.users, rows, projectId, Fingerprints(all));
    var agentFinal := Filter(IsAgent, Applied(all, active));
    assert Judge(env, rows, projectId, config, det, added, agent, resubmit).agentFinal == agentFinal;
    merged := Dedup.Decided(scoped, det, Dedup.ActiveKeys(det));
    reported := Map(Applying(active), merged);
    from := ScopedFrom(env, config, added, taken);
    AgentScopedIsAgent(env, config, added, taken);
    hide ScopedAgent, Dedup.Decided, Dedup.Merged, Dedup.Right, Filter, Active, Judge, Fingerprints, EnabledPlaces, IsAnswered,
      MergedAs, ApplyTo;
    forall k | 0 <= k < |from|
      ensures MergedAs(env, added, det, taken[from[k]], merged[k], merged[..k])
      ensures IsAnswered(env, projectId, rows, merged[k], reported[k])
    {
      Dedup.DecisionIsRight(det, scoped, k);
      RightIsMerged(env, added, det, taken[from[k]], merged[k], merged[..k]);
      MergedHas(det, scoped, k);
      AppliedIsAnswered(env, rows, projectId, merged[k], Fingerprints(all));
    }
    AgentHalf(det, scoped, active);
  }

  /** The agent's half of the answered merge is its decisions, answered. */
  lemma AgentHalf(det: seq<Finding>, scoped: seq<Finding>, active: Answers)
    requires AllDeterministic(det) && forall k :: 0 <= k < |scoped| ==> IsAgent(scoped[k])
    ensures multiset(Filter(IsAgent, Applied(Dedup.Merged(det, scoped), active)))
         == multiset(Map(Applying(active), Dedup.Decided(scoped, det, Dedup.ActiveKeys(det))))
  {
    hide Dedup.Decided, Dedup.Merged, ApplyTo, Filter;
    var all := Dedup.Merged(det, scoped);
    AppliedIsMap(all, active);
    ApplyKeepsSource(active);
    FilterMaps(IsAgent, Applying(active), all);
    Dedup.MergedHalves(det, scoped);
    MapPermutation(Applying(active), Filter(IsAgent, all), Dedup.Decided(scoped, det, Dedup.ActiveKeys(det)));
  }

  /** What the tools reported of a review, not the agent. */
  function OfTools(): Finding -> bool {
    (f: Finding) => f.source != "agent"
  }

  function Unflagged(): Finding -> Finding {
    (f: Finding) => f.(regressed := false)
  }

  /** What a submission leaves of a review: the tools' findings as they were, behind them what is reported of the agent's,
      as many as the policy takes, and no flag. */
  lemma SubmitReports(env: Env, t: Tables, actor: Principal, id: nat, agent: seq<AgentFinding>)
    returns (from: seq<nat>, merged: seq<Finding>, reported: seq<Finding>)
    requires Submit(env, t, actor, id, agent).Done?
    ensures 1 <= id <= |t.reviews.reviews|
    ensures var row, after := t.reviews.reviews[id - 1], Submit(env, t, actor, id, agent).tables;
      var config, det := env.config(row.projectId), Filter(OfTools(), FindingsOf(t.reviews, id));
      var taken: seq<Finding> := if |agent| > config.policy.maxAgentFindings then agent[..config.policy.maxAgentFindings] else agent;
      && EnabledPlaces(config, taken, from)
      && SubmissionReports(env, row.projectId, t.answers, row.added, det, taken, from, merged, reported)
      && det <= FindingsOf(after.reviews, id)
      && multiset(FindingsOf(after.reviews, id)[|det|..]) == multiset(Map(Unflagged(), reported))
  {
    var row := t.reviews.reviews[id - 1];
    var config, det := env.config(row.projectId), Filter(Dedup.IsDeterministic, FindingsOf(t.reviews, id));
    var j := Judge(env, t.answers, row.projectId, config, det, row.added, agent, row.status == Completed);
    var after := Submit(env, t, actor, id, agent).tables;
    assert after.reviews.findings == AgentReplaced(t.reviews, id, j.agentFinal).findings by {
      hide Judge, AgentReplaced, Filter, FindingsOf, StepsOf, MaxNumber;
    }
    hide Judge, FindingsOf, Filter, Submit, AgentReplaced, AllDeterministic, EnabledPlaces, SubmissionReports;
    SameFilter(Dedup.IsDeterministic, OfTools(), FindingsOf(t.reviews, id));
    StoredAreDeterministic(FindingsOf(t.reviews, id));
    from, merged, reported := JudgeReports(env, t.answers, row.projectId, config, det, row.added, agent, row.status == Completed);
    FindingsOfReplaced(t.reviews, id, id, j.agentFinal);
    SameRowsSameFindings(after.reviews, AgentReplaced(t.reviews, id, j.agentFinal), id);
    assert FindingsOf(after.reviews, id) == det + Forgotten(j.agentFinal);
    assert (det + Forgotten(j.agentFinal))[|det|..] == Forgotten(j.agentFinal);
    MapPermutation(Forget, j.agentFinal, reported);
    assert Map(Forget, reported) == Map(Unflagged(), reported);
  }
}
