// Findings, what was answered about them, and the quality gate.
module Findings {
  import opened Strings
  import opened Sorting

  datatype Finding = Finding(
    file: string,
    line: Option<int>,
    severity: string,
    ruleId: string,
    message: string,
    source: string,              // "agent", or a deterministic tool
    quotedLine: Option<string>,
    suppressed: bool,
    reason: Option<string>,      // why it is suppressed
    fingerprint: string,
    regressed: bool)
  {
    function Suppress(why: string): Finding {
      this.(suppressed := true, reason := Some(why))
    }

    function Rank(): nat {
      SeverityRank(severity, 9)
    }

    function LineOrZero(): int {
      if line.Some? then line.value else 0
    }
  }

  function SeverityRank(severity: string, unknown: nat): nat {
    if severity == "critical" then 0
    else if severity == "warning" then 1
    else if severity == "suggestion" then 2
    else if severity == "nitpick" then 3
    else unknown
  }

  predicate IsAgent(f: Finding) {
    f.source == "agent"
  }

  predicate IsActive(f: Finding) {
    !f.suppressed
  }

  // --- dispositions ---

  datatype Disposition = Fixed | Dismissed | Accepted | ConfirmedFixed

  predicate Muting(d: Disposition) {
    d.Dismissed? || d.Accepted?
  }

  function DispositionName(d: Disposition): string {
    match d
    case Fixed => "fixed"
    case Dismissed => "dismissed"
    case Accepted => "accepted"
    case ConfirmedFixed => "confirmed_fixed"
  }

  datatype ActiveDisposition =
    ActiveDisposition(fingerprint: string, disposition: Disposition, note: string, email: string, at: string)

  /** The standing answers, by fingerprint. */
  type Answers = map<string, ActiveDisposition>

  const MAX_REASON := 300

  function SuppressionReason(a: ActiveDisposition): string {
    var text := DispositionName(a.disposition) + " by " + a.email + " on " + a.at + ": " + a.note;
    if |text| <= MAX_REASON then text else text[..MAX_REASON]
  }

  /** Whether the standing answers mute `f`. */
  predicate Muted(f: Finding, active: Answers) {
    f.fingerprint in active && Muting(active[f.fingerprint].disposition)
  }

  function ApplyTo(f: Finding, active: Answers): Finding {
    if f.suppressed || !Muted(f, active) then f else f.Suppress(SuppressionReason(active[f.fingerprint]))
  }

  function Applied(findings: seq<Finding>, active: Answers): seq<Finding> {
    Map((f: Finding) => ApplyTo(f, active), findings)
  }

  /** Whether `active` holds a dismissal or an acceptance of `fingerprint`. */
  predicate Refused(fingerprint: string, active: Answers) {
    fingerprint in active && (active[fingerprint].disposition == Dismissed || active[fingerprint].disposition == Accepted)
  }

  /** What is said of a muted finding: the answer, who gave it and when, and the reason. */
  function Quote(a: ActiveDisposition): string {
    (if a.disposition == Dismissed then "dismissed" else "accepted") + " by " + a.email + " on " + a.at + ": " + a.note
  }

  /** A finding is active afterwards exactly when it was and no dismissal or acceptance stands for it; what is muted
      says by whom, when and why, in three hundred characters; order and everything else about the findings stay. */
  method ApplyDispositions(findings: seq<Finding>, active: Answers) returns (muted: seq<Finding>)
    ensures muted == Applied(findings, active)
    ensures |muted| == |findings|
    ensures forall k :: 0 <= k < |findings| ==>
      && (!muted[k].suppressed <==> !findings[k].suppressed && !Refused(findings[k].fingerprint, active))
      && muted[k] == findings[k].(suppressed := muted[k].suppressed, reason := muted[k].reason)
      && (muted[k].suppressed == findings[k].suppressed ==> muted[k] == findings[k])
      && (muted[k].suppressed && !findings[k].suppressed ==>
            && muted[k].reason.Some?
            && muted[k].reason.value <= Quote(active[findings[k].fingerprint])
            && (|muted[k].reason.value| == 300 || muted[k].reason.value == Quote(active[findings[k].fingerprint])))
  {
    muted := [];
    for k := 0 to |findings|
      invariant muted == Applied(findings[..k], active)
    {
      var finding := findings[k];
      if finding.suppressed || finding.fingerprint !in active
         || !Muting(active[finding.fingerprint].disposition) {
        muted := muted + [finding];
      } else {
        muted := muted + [finding.Suppress(SuppressionReason(active[finding.fingerprint]))];
      }
      assert findings[..k + 1] == findings[..k] + [finding];
    }
    assert findings[..|findings|] == findings;
  }

  /** Applying the same answers again changes nothing. */
  lemma ApplyTwice(findings: seq<Finding>, active: Answers)
    ensures Applied(Applied(findings, active), active) == Applied(findings, active)
  {
  }

  // --- the quality gate ---

  datatype Policy = Policy(blockOn: string, maxAgentFindings: nat)

  datatype VerdictReason = MustResolve(blockers: nat, blockOn: string) | NoBlocking

  datatype Verdict = Verdict(blocking: bool, reason: VerdictReason, counts: map<string, nat>)

  predicate Blocks(f: Finding, policy: Policy) {
    IsActive(f) && f.Rank() <= SeverityRank(policy.blockOn, 0)
  }

  function SevereFor(policy: Policy): Finding -> bool {
    (f: Finding) => f.Rank() <= SeverityRank(policy.blockOn, 0)
  }

  function BlocksFor(policy: Policy): Finding -> bool {
    (f: Finding) => Blocks(f, policy)
  }

  function OfSeverity(s: string): Finding -> bool {
    (f: Finding) => f.severity == s
  }

  function ActiveOfSeverity(s: string): Finding -> bool {
    (f: Finding) => IsActive(f) && f.severity == s
  }

  function ComputeVerdict(findings: seq<Finding>, policy: Policy): Verdict {
    var active := Filter(IsActive, findings);
    var blockers := Filter(SevereFor(policy), active);
    var severities := set f | f in active :: f.severity;
    Verdict(
      blockers != [],
      if blockers != [] then MustResolve(|blockers|, policy.blockOn) else NoBlocking,
      map s | s in severities :: Count(OfSeverity(s), active))
  }

  /** What the verdict says: it blocks when some active finding is as severe as the policy asks, and it counts
      the active findings of each severity present. */
  lemma VerdictMeans(findings: seq<Finding>, policy: Policy)
    ensures var v := ComputeVerdict(findings, policy);
      && (v.blocking <==> exists f :: f in findings && Blocks(f, policy))
      && (v.reason == if v.blocking then MustResolve(Count(BlocksFor(policy), findings), policy.blockOn) else NoBlocking)
      && (forall s :: s in v.counts <==> exists f :: f in findings && IsActive(f) && f.severity == s)
      && (forall s :: s in v.counts ==> v.counts[s] == Count(ActiveOfSeverity(s), findings) > 0)
  {
    var v := ComputeVerdict(findings, policy);
    var active := Filter(IsActive, findings);
    FilterMembers(IsActive, findings);
    FilterTwice(IsActive, SevereFor(policy), BlocksFor(policy), findings);
    FilterMembers(BlocksFor(policy), findings);
    if v.blocking {
      var f := Filter(BlocksFor(policy), findings)[0];
      assert f in findings && Blocks(f, policy);
    }
    forall s | s in v.counts
      ensures v.counts[s] == Count(ActiveOfSeverity(s), findings) > 0
    {
      FilterTwice(IsActive, OfSeverity(s), ActiveOfSeverity(s), findings);
      FilterMembers(OfSeverity(s), active);
      var f :| f in active && f.severity == s;
      assert f in Filter(OfSeverity(s), active);
    }
  }

  /** The severities a policy that blocks on `blockOn` blocks on; of a word that names none, as of the first. */
  function AtLeast(blockOn: string): set<string> {
    if blockOn == "warning" then {"critical", "warning"}
    else if blockOn == "suggestion" then {"critical", "warning", "suggestion"}
    else if blockOn == "nitpick" then {"critical", "warning", "suggestion", "nitpick"}
    else {"critical"}
  }

  function Gating(blockOn: string): Finding -> bool {
    (f: Finding) => !f.suppressed && f.severity in AtLeast(blockOn)
  }

  /** The gate, by the severities themselves: a review blocks exactly when an active finding has one of those the policy
      names or a worse one, and the reason counts them. A severity that is none of the four never blocks. */
  lemma GateBySeverity(findings: seq<Finding>, policy: Policy)
    ensures var v := ComputeVerdict(findings, policy);
      && (v.blocking <==> exists f :: f in findings && !f.suppressed && f.severity in AtLeast(policy.blockOn))
      && v.reason == (if v.blocking then MustResolve(Count(Gating(policy.blockOn), findings), policy.blockOn) else NoBlocking)
  {
    hide ComputeVerdict;
    VerdictMeans(findings, policy);
    forall f
      ensures Blocks(f, policy) <==> Gating(policy.blockOn)(f)
    {
    }
    SameFilter(BlocksFor(policy), Gating(policy.blockOn), findings);
  }

  lemma {:induction false} SameFilter(p: Finding -> bool, q: Finding -> bool, findings: seq<Finding>)
    requires forall f :: p(f) == q(f)
    ensures Filter(p, findings) == Filter(q, findings)
  {
    if findings != [] {
      SameFilter(p, q, findings[1..]);
    }
  }

  /** The verdict does not depend on the order of the findings. */
  lemma VerdictPermutation(a: seq<Finding>, b: seq<Finding>, policy: Policy)
    requires multiset(a) == multiset(b)
    ensures ComputeVerdict(a, policy) == ComputeVerdict(b, policy)
  {
    hide ComputeVerdict, Blocks, ActiveOfSeverity, BlocksFor, Count;
    SameMembers(a, b);
    VerdictMeans(a, policy);
    VerdictMeans(b, policy);
    CountPermutation(BlocksFor(policy), a, b);
    var va, vb := ComputeVerdict(a, policy), ComputeVerdict(b, policy);
    assert va.blocking == vb.blocking && va.reason == vb.reason;
    assert va.counts == vb.counts by {
      forall s
        ensures s in va.counts <==> s in vb.counts
        ensures s in va.counts ==> va.counts[s] == vb.counts[s]
      {
        CountPermutation(ActiveOfSeverity(s), a, b);
      }
    }
  }

  /** Muting findings never makes a review block. */
  lemma MutingNeverBlocks(findings: seq<Finding>, active: Answers, policy: Policy)
    ensures ComputeVerdict(Applied(findings, active), policy).blocking ==> ComputeVerdict(findings, policy).blocking
  {
    var muted := Applied(findings, active);
    VerdictMeans(findings, policy);
    VerdictMeans(muted, policy);
    if ComputeVerdict(muted, policy).blocking {
      var f :| f in muted && Blocks(f, policy);
      var k :| 0 <= k < |muted| && muted[k] == f;
      assert findings[k] in findings && Blocks(findings[k], policy);
    }
  }

  // --- the cap ---

  predicate CapOrder(a: Finding, b: Finding) {
    (!a.suppressed && b.suppressed) || (a.suppressed == b.suppressed && a.Rank() <= b.Rank())
  }

  function Cap(findings: seq<Finding>, limit: nat): (r: (seq<Finding>, seq<Finding>)) {
    if |findings| <= limit then (findings, [])
    else
      SortPermutesLength(CapOrder, findings);
      var ordered := Sort(CapOrder, findings);
      (ordered[..limit], ordered[limit..])
  }

  lemma SortPermutesLength<T>(le: (T, T) -> bool, s: seq<T>)
    ensures |Sort(le, s)| == |s|
  {
    SortPermutes(le, s);
    assert |multiset(Sort(le, s))| == |multiset(s)|;
  }

  /** The cap loses nothing: what it keeps and what it drops are the findings, nothing it keeps is less severe
      than what it drops, and under the limit the order is untouched. */
  lemma CapKeepsTheWorst(findings: seq<Finding>, limit: nat)
    ensures var (kept, dropped) := Cap(findings, limit);
      && multiset(kept) + multiset(dropped) == multiset(findings)
      && |kept| <= limit && (dropped != [] ==> |kept| == limit)
      && (forall i, j :: 0 <= i < |kept| && 0 <= j < |dropped| ==> CapOrder(kept[i], dropped[j]))
      && (|findings| <= limit ==> kept == findings)
  {
    if |findings| > limit {
      var ordered := Sort(CapOrder, findings);
      SortPermutes(CapOrder, findings);
      SortSorts(CapOrder, findings);
      SortPermutesLength(CapOrder, findings);
      assert ordered == ordered[..limit] + ordered[limit..];
    }
  }

  /** One of the four severities. */
  predicate IsSeverity(severity: string) {
    severity in AtLeast("nitpick")
  }

  /** By the severities themselves: `a` may be kept where `b` is dropped. */
  predicate NoLessSevere(a: Finding, b: Finding) {
    && (a.suppressed ==> b.suppressed)
    && (a.suppressed == b.suppressed && IsSeverity(b.severity) ==> a.severity in AtLeast(b.severity))
  }

  /** And findings the cap ranks alike keep the order the rules produced. */
  lemma CapKeepsOrder(findings: seq<Finding>, limit: nat, alike: Finding -> bool)
    requires Alike(CapOrder, alike)
    ensures var (kept, dropped) := Cap(findings, limit);
      Filter(alike, kept + dropped) == Filter(alike, findings)
  {
    hide Filter, Sort;
    var (kept, dropped) := Cap(findings, limit);
    if |findings| <= limit {
      assert kept + dropped == findings;
    } else {
      SortPermutesLength(CapOrder, findings);
      assert kept + dropped == Sort(CapOrder, findings);
      SortIsStable(CapOrder, alike, findings);
    }
  }

  function OfKind(severity: string, muted: bool): Finding -> bool {
    (f: Finding) => f.suppressed == muted && f.severity == severity
  }

  /** `kept` and `dropped` are what a limit makes of the findings: all of them together; under the limit everything as it
      came; over it as many as the limit says, by severity, what is active first, so that nothing is dropped for something
      less severe; and findings of one severity in the order they came. */
  ghost predicate CutTo(findings: seq<Finding>, kept: seq<Finding>, dropped: seq<Finding>, limit: nat) {
    && multiset(kept) + multiset(dropped) == multiset(findings)
    && (|findings| <= limit ==> kept == findings && dropped == [])
    && (|findings| > limit ==>
          && |kept| == limit
          && forall i, j :: 0 <= i < j < |kept + dropped| ==> NoLessSevere((kept + dropped)[i], (kept + dropped)[j]))
    && forall severity, muted ::
         Filter(OfKind(severity, muted), kept + dropped) == Filter(OfKind(severity, muted), findings)
  }

  lemma CapCuts(findings: seq<Finding>, limit: nat)
    ensures var (kept, dropped) := Cap(findings, limit); CutTo(findings, kept, dropped, limit)
  {
    var (kept, dropped) := Cap(findings, limit);
    CapKeepsTheWorst(findings, limit);
    assert |findings| <= limit ==> dropped == [];
    hide Cap, Sort, NoLessSevere, Filter;
    forall severity, muted
      ensures Filter(OfKind(severity, muted), kept + dropped) == Filter(OfKind(severity, muted), findings)
    {
      CapKeepsOrder(findings, limit, OfKind(severity, muted));
    }
    if |findings| > limit {
      CapSorts(findings, limit);
    }
  }

  lemma CapSorts(findings: seq<Finding>, limit: nat)
    requires |findings| > limit
    ensures var (kept, dropped) := Cap(findings, limit);
      && |kept| == limit
      && forall i, j :: 0 <= i < j < |kept + dropped| ==> NoLessSevere((kept + dropped)[i], (kept + dropped)[j])
  {
    var ordered := Sort(CapOrder, findings);
    SortSorts(CapOrder, findings);
    SortPermutesLength(CapOrder, findings);
    hide Sort, NoLessSevere, CapOrder;
    var (kept, dropped) := Cap(findings, limit);
    assert kept + dropped == ordered;
    forall i, j | 0 <= i < j < |ordered|
      ensures NoLessSevere(ordered[i], ordered[j])
    {
      OrderIsSeverity(ordered[i], ordered[j]);
    }
  }

  lemma OrderIsSeverity(a: Finding, b: Finding)
    requires CapOrder(a, b)
    ensures NoLessSevere(a, b)
  {
  }
}
