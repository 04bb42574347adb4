// Merging the deterministic findings with the agent's: proof beats opinion, and nobody is told twice.
module Dedup {
  import opened Sorting
  import opened Findings

  const LINE_TOLERANCE := 2

  const RESTATED := "already reported by a deterministic rule"
  const DUPLICATE := "duplicate of another finding in this review"

  /** The bucket a finding falls into. Python's `//` floors, as `/` does here for a positive divisor. */
  datatype Key = Key(file: string, bucket: int, ruleId: string)

  function KeyOf(f: Finding): Key {
    Key(f.file, f.LineOrZero() / (LINE_TOLERANCE + 1), f.ruleId)
  }

  /** Two findings about the same place for the same reason. */
  predicate Near(a: Finding, b: Finding) {
    && a.file == b.file && a.ruleId == b.ruleId
    && -LINE_TOLERANCE <= a.LineOrZero() - b.LineOrZero() <= LINE_TOLERANCE
  }

  predicate Overlaps(candidate: Finding, others: seq<Finding>) {
    exists k :: 0 <= k < |others| && IsActive(others[k]) && Near(others[k], candidate)
  }

  // --- the same, by the fields ---

  /** A finding's line; one without a line counts as on line 0. */
  function Place(f: Finding): int {
    match f.line case Some(n) => n case None => 0
  }

  /** Some active finding of `others` has the file and the rule of `c` and a line at most two away. */
  predicate ToldBy(c: Finding, others: seq<Finding>) {
    exists k :: 0 <= k < |others| && !others[k].suppressed && others[k].file == c.file && others[k].ruleId == c.ruleId
                && -2 <= Place(others[k]) - Place(c) <= 2
  }

  /** The same file, the same rule and the same three lines. */
  predicate Alongside(a: Finding, b: Finding) {
    a.file == b.file && a.ruleId == b.ruleId && Place(a) / 3 == Place(b) / 3
  }

  lemma OverlapsIsTold(c: Finding, others: seq<Finding>)
    ensures Overlaps(c, others) <==> ToldBy(c, others)
  {
    if Overlaps(c, others) {
      var k :| 0 <= k < |others| && IsActive(others[k]) && Near(others[k], c);
      assert !others[k].suppressed && others[k].file == c.file;
    }
    if ToldBy(c, others) {
      var k :| 0 <= k < |others| && !others[k].suppressed && others[k].file == c.file && others[k].ruleId == c.ruleId
               && -2 <= Place(others[k]) - Place(c) <= 2;
      assert IsActive(others[k]) && Near(others[k], c);
    }
  }

  lemma KeyIsAlongside(a: Finding, b: Finding)
    ensures KeyOf(a) == KeyOf(b) <==> Alongside(a, b)
  {
  }

  /** Findings of one bucket are of one file and one rule, and never more than two lines apart. */
  lemma SameKeyIsNear(a: Finding, b: Finding)
    requires KeyOf(a) == KeyOf(b)
    ensures a.file == b.file && a.ruleId == b.ruleId && -2 <= Place(a) - Place(b) <= 2
  {
    var x, y := a.LineOrZero(), b.LineOrZero();
    assert x == 3 * (x / 3) + x % 3 && y == 3 * (y / 3) + y % 3;
  }

  // --- the order a reader sees ---

  /** Python's string comparison, by code point. */
  predicate LexLe(a: string, b: string) {
    a == [] || (b != [] && (a[0] < b[0] || (a[0] == b[0] && LexLe(a[1..], b[1..]))))
  }

  lemma {:induction false} LexTotal(a: string, b: string)
    ensures LexLe(a, b) || LexLe(b, a)
    ensures LexLe(a, b) && LexLe(b, a) ==> a == b
  {
    if a != [] && b != [] {
      LexTotal(a[1..], b[1..]);
      assert a == [a[0]] + a[1..] && b == [b[0]] + b[1..];
    }
  }

  lemma {:induction false} LexTransitive(a: string, b: string, c: string)
    requires LexLe(a, b) && LexLe(b, c)
    ensures LexLe(a, c)
  {
    if a != [] && b != [] && c != [] && a[0] == b[0] == c[0] {
      LexTransitive(a[1..], b[1..], c[1..]);
    }
  }

  /** The sort key `(suppressed, rank, file, line or 0)`. */
  predicate MergeOrder(a: Finding, b: Finding) {
    if a.suppressed != b.suppressed then b.suppressed
    else if a.Rank() != b.Rank() then a.Rank() < b.Rank()
    else if a.file != b.file then LexLe(a.file, b.file)
    else a.LineOrZero() <= b.LineOrZero()
  }

  lemma MergeOrderTotal()
    ensures Total(MergeOrder)
  {
    forall a, b
      ensures MergeOrder(a, b) || MergeOrder(b, a)
    {
      LexTotal(a.file, b.file);
    }
    forall a, b, c | MergeOrder(a, b) && MergeOrder(b, c)
      ensures MergeOrder(a, c)
    {
      LexTotal(a.file, b.file);
      if LexLe(a.file, b.file) && LexLe(b.file, c.file) {
        LexTransitive(a.file, b.file, c.file);
      }
      LexTotal(b.file, c.file);
    }
  }

  /** Strings in the order of code points: one starts the other, or they first differ in a smaller character. */
  predicate CodePointsLe(a: string, b: string) {
    a <= b || exists n :: 0 <= n < |a| && n < |b| && a[..n] == b[..n] && a[n] < b[n]
  }

  lemma {:induction false} LexIsCodePoints(a: string, b: string)
    ensures LexLe(a, b) ==> CodePointsLe(a, b)
  {
    if LexLe(a, b) && a != [] {
      if a[0] < b[0] {
        assert a[..0] == b[..0];
      } else {
        LexIsCodePoints(a[1..], b[1..]);
        if a[1..] <= b[1..] {
          assert a == [a[0]] + a[1..] && b == [b[0]] + b[1..];
        } else {
          var n :| 0 <= n < |a[1..]| && n < |b[1..]| && a[1..][..n] == b[1..][..n] && a[1..][n] < b[1..][n];
          assert a[..n + 1] == [a[0]] + a[1..][..n] && b[..n + 1] == [b[0]] + b[1..][..n];
          assert a[n + 1] < b[n + 1];
        }
      }
    }
  }

  /** The order a reader sees, by the fields: what is active first, then by severity, then by file, then by line. */
  predicate Ahead(a: Finding, b: Finding) {
    var alike := a.severity == b.severity || (!IsSeverity(a.severity) && !IsSeverity(b.severity));
    && NoLessSevere(a, b)
    && (a.suppressed == b.suppressed && alike ==>
          CodePointsLe(a.file, b.file) && (a.file == b.file ==> Place(a) <= Place(b)))
  }

  lemma OrderIsAhead(a: Finding, b: Finding)
    requires MergeOrder(a, b)
    ensures Ahead(a, b)
  {
    LexIsCodePoints(a.file, b.file);
    hide LexLe, CodePointsLe;
    SameFileAhead(a.file);
  }

  lemma SameFileAhead(file: string)
    ensures CodePointsLe(file, file)
  {
  }

  // --- merge ---

  /** What becomes of one agent finding, given the buckets already spoken for. */
  function Decide(c: Finding, det: seq<Finding>, seen: set<Key>): Finding {
    if c.suppressed then c
    else if Overlaps(c, det) then c.Suppress(RESTATED)
    else if KeyOf(c) in seen then c.Suppress(DUPLICATE)
    else c
  }

  function Decided(agent: seq<Finding>, det: seq<Finding>, seen: set<Key>): (r: seq<Finding>)
    ensures |r| == |agent|
  {
    if agent == [] then []
    else
      var first := Decide(agent[0], det, seen);
      [first] + Decided(agent[1..], det, if IsActive(first) then seen + {KeyOf(first)} else seen)
  }

  function ActiveKeys(findings: seq<Finding>): set<Key> {
    set f | f in findings && IsActive(f) :: KeyOf(f)
  }

  function Merged(det: seq<Finding>, agent: seq<Finding>): seq<Finding> {
    Sort(MergeOrder, det + Decided(agent, det, ActiveKeys(det)))
  }

  method Merge(det: seq<Finding>, agent: seq<Finding>) returns (kept: seq<Finding>)
    ensures kept == Merged(det, agent)
    ensures forall i, j :: 0 <= i < j < |kept| ==> Ahead(kept[i], kept[j])
    ensures multiset(kept) == multiset(det) + multiset(Decided(agent, det, ActiveKeys(det)))
    ensures var out := Decided(agent, det, ActiveKeys(det));
      |out| == |agent| && forall k :: 0 <= k < |agent| ==> Right(det, agent[k], out[k], out[..k])
  {
    hide Right, Ahead, Sort;
    kept := det;
    var seen := ActiveKeys(det);
    for k := 0 to |agent|
      invariant det + Decided(agent, det, ActiveKeys(det)) == kept + Decided(agent[k..], det, seen)
    {
      var candidate := agent[k];
      assert agent[k..][0] == candidate && agent[k..][1..] == agent[k + 1..];
      if candidate.suppressed {
        kept := kept + [candidate];
        continue;
      }
      if Overlaps(candidate, det) {
        kept := kept + [candidate.Suppress(RESTATED)];
        continue;
      }
      var key := KeyOf(candidate);
      if key in seen {
        kept := kept + [candidate.Suppress(DUPLICATE)];
        continue;
      }
      seen := seen + {key};
      kept := kept + [candidate];
    }
    assert kept + Decided(agent[|agent|..], det, seen) == kept;
    kept := Sort(MergeOrder, kept);
    AllRight(det, agent);
    MergedInOrder(det, agent);
  }

  lemma MergedInOrder(det: seq<Finding>, agent: seq<Finding>)
    ensures multiset(Merged(det, agent)) == multiset(det) + multiset(Decided(agent, det, ActiveKeys(det)))
    ensures forall i, j :: 0 <= i < j < |Merged(det, agent)| ==> Ahead(Merged(det, agent)[i], Merged(det, agent)[j])
  {
    hide Ahead, MergeOrder, Decided;
    MergeOrderTotal();
    SortSorts(MergeOrder, det + Decided(agent, det, ActiveKeys(det)));
    SortPermutes(MergeOrder, det + Decided(agent, det, ActiveKeys(det)));
    var kept := Merged(det, agent);
    forall i, j | 0 <= i < j < |kept|
      ensures Ahead(kept[i], kept[j])
    {
      OrderIsAhead(kept[i], kept[j]);
    }
  }

  // --- what a merge promises ---

  /** Whether agent finding `c` has an active earlier finding of its three lines among `earlier`. */
  predicate SpokenFor(c: Finding, earlier: seq<Finding>) {
    exists j :: 0 <= j < |earlier| && !earlier[j].suppressed && Alongside(earlier[j], c)
  }

  /** The decision `o` on agent finding `c` behind the decisions `earlier`: left alone unless active; muted as
      restated exactly when an active deterministic finding has its file, its rule and a line at most two away;
      otherwise muted as a duplicate exactly when an earlier agent finding that is still active has its file, its rule
      and its three lines; otherwise left alone. */
  predicate Right(det: seq<Finding>, c: Finding, o: Finding, earlier: seq<Finding>) {
    o == if c.suppressed then c
         else if ToldBy(c, det) then c.Suppress("already reported by a deterministic rule")
         else if SpokenFor(c, earlier) then c.Suppress("duplicate of another finding in this review")
         else c
  }

  /** A bucket of the deterministic findings means an overlap; so a duplicate is one of an agent finding. */
  lemma BucketMeans(det: seq<Finding>, done: seq<Finding>, c: Finding)
    ensures KeyOf(c) in ActiveKeys(det) ==> ToldBy(c, det)
    ensures KeyOf(c) in ActiveKeys(done) <==> SpokenFor(c, done)
    ensures Overlaps(c, det) <==> ToldBy(c, det)
  {
    OverlapsIsTold(c, det);
    hide Overlaps, KeyOf, Alongside;
    if KeyOf(c) in ActiveKeys(det) {
      var d :| d in det && IsActive(d) && KeyOf(d) == KeyOf(c);
      var k :| 0 <= k < |det| && det[k] == d;
      SameKeyIsNear(d, c);
      assert !det[k].suppressed && det[k].file == c.file;
    }
    if KeyOf(c) in ActiveKeys(done) {
      var d :| d in done && IsActive(d) && KeyOf(d) == KeyOf(c);
      var j :| 0 <= j < |done| && done[j] == d;
      KeyIsAlongside(done[j], c);
    }
    if SpokenFor(c, done) {
      var j :| 0 <= j < |done| && !done[j].suppressed && Alongside(done[j], c);
      KeyIsAlongside(done[j], c);
      assert done[j] in done;
    }
  }

  lemma OneMoreKey(done: seq<Finding>, f: Finding)
    ensures ActiveKeys(done + [f]) == if IsActive(f) then ActiveKeys(done) + {KeyOf(f)} else ActiveKeys(done)
  {
    assert forall x :: x in done + [f] <==> x in done || x == f;
  }

  /** `seen` stays the buckets of the active deterministic findings and of the active decisions made so far. */
  lemma {:induction false} DecidedFrom(det: seq<Finding>, agent: seq<Finding>, done: seq<Finding>, seen: set<Key>, k: nat)
    requires seen == ActiveKeys(det) + ActiveKeys(done) && k < |agent|
    ensures var out := Decided(agent, det, seen);
      Right(det, agent[k], out[k], done + out[..k])
    decreases |agent|
  {
    hide ActiveKeys, Right, Decide, KeyOf;
    var first := Decide(agent[0], det, seen);
    var out := Decided(agent, det, seen);
    if k == 0 {
      DecideIsRight(det, agent[0], done, seen);
      assert done + out[..0] == done;
    } else {
      OneMoreKey(done, first);
      DecidedFrom(det, agent[1..], done + [first], if IsActive(first) then seen + {KeyOf(first)} else seen, k - 1);
      assert out[1..][..k - 1] == out[1..k];
      assert done + [first] + out[1..k] == done + out[..k];
    }
  }

  lemma DecideIsRight(det: seq<Finding>, c: Finding, done: seq<Finding>, seen: set<Key>)
    requires seen == ActiveKeys(det) + ActiveKeys(done)
    ensures Right(det, c, Decide(c, det, seen), done)
  {
    hide ActiveKeys, Overlaps, ToldBy, KeyOf, SpokenFor;
    BucketMeans(det, done, c);
  }

  lemma NoKeys()
    ensures ActiveKeys([]) == {}
  {
  }

  lemma DecisionIsRight(det: seq<Finding>, agent: seq<Finding>, k: nat)
    requires k < |agent|
    ensures var out := Decided(agent, det, ActiveKeys(det));
      Right(det, agent[k], out[k], out[..k])
  {
    hide Right, Decided, ActiveKeys;
    assert ActiveKeys(det) == ActiveKeys(det) + ActiveKeys([]) by {
      NoKeys();
    }
    DecidedFrom(det, agent, [], ActiveKeys(det), k);
    var out := Decided(agent, det, ActiveKeys(det));
    assert [] + out[..k] == out[..k];
  }

  lemma AllRight(det: seq<Finding>, agent: seq<Finding>)
    ensures var out := Decided(agent, det, ActiveKeys(det));
      forall k :: 0 <= k < |agent| ==> Right(det, agent[k], out[k], out[..k])
  {
    hide Right;
    forall k | 0 <= k < |agent|
      ensures var out := Decided(agent, det, ActiveKeys(det)); Right(det, agent[k], out[k], out[..k])
    {
      DecisionIsRight(det, agent, k);
    }
  }

  /** After a merge no active agent finding has the file, the rule and, within two, the line of an active deterministic
      one, and no two active agent findings have the same file, rule and three lines. */
  lemma NobodyIsToldTwice(det: seq<Finding>, agent: seq<Finding>)
    ensures var out := Decided(agent, det, ActiveKeys(det));
      && (forall k :: 0 <= k < |out| && !out[k].suppressed ==> out[k] == agent[k] && !ToldBy(out[k], det))
      && (forall i, j :: 0 <= i < j < |out| && !out[i].suppressed && !out[j].suppressed ==> !Alongside(out[i], out[j]))
  {
    hide ToldBy, Alongside;
    var out := Decided(agent, det, ActiveKeys(det));
    forall k | 0 <= k < |out| && !out[k].suppressed
      ensures out[k] == agent[k] && !ToldBy(out[k], det)
    {
      DecisionIsRight(det, agent, k);
    }
    forall i, j | 0 <= i < j < |out| && !out[i].suppressed && !out[j].suppressed
      ensures !Alongside(out[i], out[j])
    {
      DecisionIsRight(det, agent, j);
      assert out[..j][i] == out[i];
    }
  }

  /** Every agent finding a merge mutes has a witness that is still active in the merged list: of its file and its rule,
      and at most two lines away. */
  lemma MutedHasWitness(det: seq<Finding>, agent: seq<Finding>, k: nat) returns (w: Finding)
    requires k < |agent| && !agent[k].suppressed
    requires Decided(agent, det, ActiveKeys(det))[k].suppressed
    ensures w in Merged(det, agent) && !w.suppressed
    ensures w.file == agent[k].file && w.ruleId == agent[k].ruleId && -2 <= Place(w) - Place(agent[k]) <= 2
    ensures w in det || exists j :: 0 <= j < k && w == agent[j]
    ensures Decided(agent, det, ActiveKeys(det))[k] == agent[k].Suppress(if ToldBy(agent[k], det) then RESTATED else DUPLICATE)
  {
    hide Alongside;
    var out := Decided(agent, det, ActiveKeys(det));
    var all := det + out;
    DecisionIsRight(det, agent, k);
    NobodyIsToldTwice(det, agent);
    SortPermutes(MergeOrder, all);
    SameMembers(Merged(det, agent), all);
    if ToldBy(agent[k], det) {
      var i :| 0 <= i < |det| && !det[i].suppressed && det[i].file == agent[k].file && det[i].ruleId == agent[k].ruleId
               && -2 <= Place(det[i]) - Place(agent[k]) <= 2;
      w := det[i];
      assert all[i] == w;
    } else {
      var j :| 0 <= j < |out[..k]| && !out[..k][j].suppressed && Alongside(out[..k][j], agent[k]);
      w := out[j];
      KeyIsAlongside(w, agent[k]);
      SameKeyIsNear(w, agent[k]);
      assert all[|det| + j] == w;
    }
  }

  predicate IsDeterministic(f: Finding) {
    !IsAgent(f)
  }

  lemma {:induction false} DecidedKeepsSource(agent: seq<Finding>, det: seq<Finding>, seen: set<Key>)
    requires forall k :: 0 <= k < |agent| ==> IsAgent(agent[k])
    ensures forall k :: 0 <= k < |agent| ==> IsAgent(Decided(agent, det, seen)[k])
    decreases |agent|
  {
    if agent != [] {
      var first := Decide(agent[0], det, seen);
      DecidedKeepsSource(agent[1..], det, if IsActive(first) then seen + {KeyOf(first)} else seen);
    }
  }

  /** The two halves of a merge: the deterministic findings come through unchanged, the agent's as decided. */
  lemma MergedHalves(det: seq<Finding>, agent: seq<Finding>)
    requires forall k :: 0 <= k < |det| ==> IsDeterministic(det[k])
    requires forall k :: 0 <= k < |agent| ==> IsAgent(agent[k])
    ensures multiset(Filter(IsDeterministic, Merged(det, agent))) == multiset(det)
    ensures multiset(Filter(IsAgent, Merged(det, agent))) == multiset(Decided(agent, det, ActiveKeys(det)))
  {
    hide Decided, Sort, Filter, ActiveKeys;
    var out := Decided(agent, det, ActiveKeys(det));
    DecidedKeepsSource(agent, det, ActiveKeys(det));
    SortPermutes(MergeOrder, det + out);
    FilterPermutation(IsDeterministic, Merged(det, agent), det + out);
    FilterPermutation(IsAgent, Merged(det, agent), det + out);
    FilterConcat(IsDeterministic, det, out);
    FilterConcat(IsAgent, det, out);
    FilterAll(IsDeterministic, det);
    FilterAll(IsDeterministic, out);
    FilterAll(IsAgent, det);
    FilterAll(IsAgent, out);
    assert det + [] == det && [] + out == out;
  }

  /** Findings the merge ranks alike stay as they came: the deterministic ones first, each half in its own order. */
  lemma MergeKeepsOrder(det: seq<Finding>, agent: seq<Finding>, alike: Finding -> bool)
    requires Alike(MergeOrder, alike)
    ensures Filter(alike, Merged(det, agent))
         == Filter(alike, det) + Filter(alike, Decided(agent, det, ActiveKeys(det)))
  {
    hide Filter, Sort, Decided;
    var decided := Decided(agent, det, ActiveKeys(det));
    SortIsStable(MergeOrder, alike, det + decided);
    FilterConcat(alike, det, decided);
  }
}
