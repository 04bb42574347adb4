// Findings outside the change, and findings nobody can act on: muted once, for every rule.
module Suppression {
  import opened Strings
  import opened Sorting
  import opened Findings
  import opened PatchApply
  import UnifiedDiff
  import Dedup

  // --- lookup_by_path ---

  predicate SuffixMatch(file: string, path: string) {
    EndsWith(path, "/" + file) || EndsWith(file, "/" + path)
  }

  function FirstSuffix<T>(file: string, d: Dict<T>): Option<T> {
    if d == [] then None
    else if SuffixMatch(file, d[0].0) then Some(d[0].1)
    else FirstSuffix(file, d[1..])
  }

  function Exact<T>(file: string, d: Dict<T>): Option<T> {
    if d == [] then None else if d[0].0 == file then Some(d[0].1) else Exact(file, d[1..])
  }

  /** The value keyed by `file` itself, else by the first path one is a suffix of the other with, else nothing. */
  function LookupByPath<T>(file: string, d: Dict<T>): Option<T> {
    if Exact(file, d).Some? then Exact(file, d) else FirstSuffix(file, d)
  }

  // --- the same, path by path ---

  /** One path is the other from some directory on. */
  ghost predicate Rooted(file: string, path: string) {
    (exists front: string :: path == front + "/" + file) || (exists front: string :: file == front + "/" + path)
  }

  /** No path of `d` names the file. */
  ghost predicate NamesNone<T>(file: string, d: Dict<T>) {
    forall k :: 0 <= k < |d| ==> d[k].0 != file && !Rooted(file, d[k].0)
  }

  /** Entry `k` is the first with this very path. */
  ghost predicate FirstExact<T>(file: string, d: Dict<T>, k: int) {
    0 <= k < |d| && d[k].0 == file && forall j :: 0 <= j < k ==> d[j].0 != file
  }

  /** Entry `k` is the first whose path is rooted elsewhere. */
  ghost predicate FirstRooted<T>(file: string, d: Dict<T>, k: int) {
    0 <= k < |d| && Rooted(file, d[k].0) && forall j :: 0 <= j < k ==> !Rooted(file, d[j].0)
  }

  /** Entry `k` is the one for the file: the first with this very path, or when there is none the first that is rooted
      elsewhere. */
  ghost predicate Picks<T>(file: string, d: Dict<T>, k: int) {
    || FirstExact(file, d, k)
    || (FirstRooted(file, d, k) && forall j :: 0 <= j < |d| ==> d[j].0 != file)
  }

  lemma EndsIsFront(s: string, suffix: string)
    ensures EndsWith(s, suffix) <==> exists front: string :: s == front + suffix
  {
    if EndsWith(s, suffix) {
      assert s == s[..|s| - |suffix|] + suffix;
    }
  }

  lemma SuffixIsRooted(file: string, path: string)
    ensures SuffixMatch(file, path) <==> Rooted(file, path)
  {
    EndsIsFront(path, "/" + file);
    EndsIsFront(file, "/" + path);
    assert forall front: string :: front + ("/" + file) == front + "/" + file;
    assert forall front: string :: front + ("/" + path) == front + "/" + path;
  }

  lemma {:induction false} ExactPicks<T>(file: string, d: Dict<T>)
    ensures Exact(file, d).None? <==> forall j :: 0 <= j < |d| ==> d[j].0 != file
    ensures forall k :: FirstExact(file, d, k) ==> Exact(file, d) == Some(d[k].1)
    ensures Exact(file, d).Some? ==> exists k :: FirstExact(file, d, k)
  {
    if d != [] {
      if d[0].0 == file {
        assert FirstExact(file, d, 0);
      } else {
        ExactPicks(file, d[1..]);
        assert forall k :: 1 <= k < |d| ==> d[k] == d[1..][k - 1];
        forall k | FirstExact(file, d, k)
          ensures Exact(file, d) == Some(d[k].1)
        {
          assert forall j :: 0 <= j < k - 1 ==> d[1..][j] == d[j + 1];
          assert FirstExact(file, d[1..], k - 1);
        }
        if k :| FirstExact(file, d[1..], k) {
          assert FirstExact(file, d, k + 1);
        }
      }
    }
  }

  lemma {:induction false} SuffixPicks<T>(file: string, d: Dict<T>)
    ensures FirstSuffix(file, d).None? <==> forall j :: 0 <= j < |d| ==> !Rooted(file, d[j].0)
    ensures forall k :: FirstRooted(file, d, k) ==> FirstSuffix(file, d) == Some(d[k].1)
    ensures FirstSuffix(file, d).Some? ==> exists k :: FirstRooted(file, d, k)
  {
    hide Rooted, SuffixMatch;
    if d != [] {
      SuffixIsRooted(file, d[0].0);
      if SuffixMatch(file, d[0].0) {
        assert FirstRooted(file, d, 0);
      } else {
        SuffixPicks(file, d[1..]);
        assert forall k :: 1 <= k < |d| ==> d[k] == d[1..][k - 1];
        forall k | FirstRooted(file, d, k)
          ensures FirstSuffix(file, d) == Some(d[k].1)
        {
          assert forall j :: 0 <= j < k - 1 ==> d[1..][j] == d[j + 1];
          assert FirstRooted(file, d[1..], k - 1);
        }
        if k :| FirstRooted(file, d[1..], k) {
          assert FirstRooted(file, d, k + 1);
        }
      }
    }
  }

  /** Looking up a path finds the entry for the file, or nothing when no path names it. */
  lemma LookupPicks<T>(file: string, d: Dict<T>)
    ensures LookupByPath(file, d).None? <==> NamesNone(file, d)
    ensures forall k :: Picks(file, d, k) ==> LookupByPath(file, d) == Some(d[k].1)
    ensures LookupByPath(file, d).Some? ==> exists k :: Picks(file, d, k)
  {
    hide Rooted, Exact, FirstSuffix, FirstRooted;
    ExactPicks(file, d);
    SuffixPicks(file, d);
    if Exact(file, d).Some? {
      var k :| FirstExact(file, d, k);
      assert Picks(file, d, k);
    } else if FirstSuffix(file, d).Some? {
      var k :| FirstRooted(file, d, k);
      assert Picks(file, d, k);
    }
  }

  lemma PicksInside<T>(file: string, d: Dict<T>)
    ensures forall k :: Picks(file, d, k) ==> 0 <= k < |d|
  {
  }

  /** A finding in a file no path of the change names, or on an added line of the one that does. */
  ghost predicate InChange(f: Finding, added: Dict<set<nat>>) {
    || NamesNone(f.file, added)
    || (f.line.Some? && f.line.value > 0 && exists k :: Picks(f.file, added, k) && f.line.value in added[k].1)
  }

  lemma ScopeIsChange(f: Finding, added: Dict<set<nat>>)
    ensures InScope(f, added) <==> InChange(f, added)
  {
    hide LookupByPath, NamesNone, Picks;
    LookupPicks(f.file, added);
  }

  // --- scope_to_diff ---

  const OUTSIDE := "outside the diff's changed lines (pre-existing code)"

  /** A finding in no changed file, or on a changed line of one. */
  predicate InScope(f: Finding, added: Dict<set<nat>>) {
    var lines := LookupByPath(f.file, added);
    lines.None? || (f.line.Some? && f.line.value > 0 && f.line.value in lines.value)
  }

  function Scoped(f: Finding, added: Dict<set<nat>>): Finding {
    if InScope(f, added) then f else f.Suppress(OUTSIDE)
  }

  function ScopedAll(findings: seq<Finding>, added: Dict<set<nat>>): seq<Finding> {
    Map((f: Finding) => Scoped(f, added), findings)
  }

  method ScopeToDiff(findings: seq<Finding>, added: Dict<set<nat>>) returns (out: seq<Finding>)
    ensures out == ScopedAll(findings, added)
    ensures forall k :: 0 <= k < |findings| ==>
      out[k] == if InChange(findings[k], added) then findings[k]
                else findings[k].(suppressed := true, reason := Some("outside the diff's changed lines (pre-existing code)"))
  {
    forall k | 0 <= k < |findings|
      ensures InScope(findings[k], added) <==> InChange(findings[k], added)
    {
      ScopeIsChange(findings[k], added);
    }
    hide InChange;
    out := [];
    for k := 0 to |findings|
      invariant out == ScopedAll(findings[..k], added)
    {
      var f := findings[k];
      var lines := LookupByPath(f.file, added);
      if lines.None? || (f.line.Some? && f.line.value > 0 && f.line.value in lines.value) {
        out := out + [f];
      } else {
        out := out + [f.Suppress(OUTSIDE)];
      }
      assert findings[..k + 1] == findings[..k] + [f];
    }
    assert findings[..|findings|] == findings;
  }

  // --- drop_unactionable ---

  const GENERATED := "generated by the SAP extension generator, not hand-written"
  const JALO := "the extension's Jalo entry point, which exists to reach the Jalo layer"
  const ACKNOWLEDGED := "the author marked this line deliberate (NOPMD/NOSONAR)"

  /** The regular expressions, each a question about one line or path. */
  datatype Patterns = Patterns(
    generatedLine: string -> bool,
    jaloPath: string -> bool,
    jaloLine: string -> bool,
    acknowledged: string -> bool,
    declares: string -> Option<string>,
    overrides: string -> bool)

  type Source = Option<seq<string>>

  function SourceOf(path: string, files: Dict<string>): Source {
    match LookupByPath(path, files)
    case None => None
    case Some(content) => Some(UnifiedDiff.SplitLines(content))
  }

  predicate Somewhere(p: string -> bool, lines: seq<string>) {
    exists k :: 0 <= k < |lines| && p(lines[k])
  }

  predicate IsGenerated(p: Patterns, path: string, lines: seq<string>) {
    EndsWith(path, "Standalone.java") && Somewhere(p.generatedLine, lines)
  }

  predicate IsJaloManager(p: Patterns, path: string, lines: seq<string>) {
    p.jaloPath(path) && Somewhere(p.jaloLine, lines)
  }

  /** Line `line` of the source, counting from 1. */
  function LineAt(source: Source, line: Option<int>): Option<string> {
    if source.Some? && line.Some? && 1 <= line.value <= |source.value| then Some(source.value[line.value - 1]) else None
  }

  predicate IsAcknowledged(p: Patterns, lines: seq<string>, line: Option<int>) {
    LineAt(Some(lines), line).Some? && p.acknowledged(LineAt(Some(lines), line).value)
  }

  function DeclaredMethod(p: Patterns, source: Source, line: Option<int>): Option<string> {
    if LineAt(source, line).None? then None else p.declares(LineAt(source, line).value)
  }

  /** The last line before `n` that is not blank. */
  function LastNonBlank(lines: seq<string>, n: nat): Option<string>
    requires n <= |lines|
  {
    if n == 0 then None
    else if Strip(lines[n - 1]) != "" then Some(lines[n - 1])
    else LastNonBlank(lines, n - 1)
  }

  predicate Overrides(p: Patterns, source: Source, line: Option<int>) {
    && LineAt(source, line).Some?
    && var previous := LastNonBlank(source.value, line.value - 1);
       previous.Some? && p.overrides(previous.value)
  }

  /** The first pass on one finding. */
  function Marked(p: Patterns, files: Dict<string>, f: Finding): Finding {
    match SourceOf(f.file, files)
    case None => f
    case Some(lines) =>
      if IsGenerated(p, f.file, lines) then f.Suppress(GENERATED)
      else if IsJaloManager(p, f.file, lines) then f.Suppress(JALO)
      else if IsAcknowledged(p, lines, f.line) then f.Suppress(ACKNOWLEDGED)
      else f
  }

  // --- override twins ---

  function MethodOf(p: Patterns, files: Dict<string>, f: Finding): Option<string> {
    DeclaredMethod(p, SourceOf(f.file, files), f.line)
  }

  predicate IsOverride(p: Patterns, files: Dict<string>, f: Finding) {
    Overrides(p, SourceOf(f.file, files), f.line)
  }

  /** An active finding on the declaration of `name` that overrides nothing. */
  predicate Declares(p: Patterns, files: Dict<string>, f: Finding, ruleId: string, name: string) {
    IsActive(f) && f.ruleId == ruleId && MethodOf(p, files, f) == Some(name) && !IsOverride(p, files, f)
  }

  function DeclaringFiles(p: Patterns, files: Dict<string>, findings: seq<Finding>, ruleId: string, name: string): set<string> {
    set f | f in findings && Declares(p, files, f, ruleId, name) :: f.file
  }

  /** The other files where the method a finding overrides was reported for the same rule. */
  function Elsewhere(p: Patterns, files: Dict<string>, findings: seq<Finding>, f: Finding): set<string> {
    if IsActive(f) && MethodOf(p, files, f).Some? && IsOverride(p, files, f)
    then DeclaringFiles(p, files, findings, f.ruleId, MethodOf(p, files, f).value) - {f.file}
    else {}
  }

  predicate IsLeast(m: string, s: set<string>) {
    m in s && forall x :: x in s ==> Dedup.LexLe(m, x)
  }

  lemma LeastNext(a: string, m: string, rest: set<string>)
    requires IsLeast(m, rest)
    ensures IsLeast(a, rest + {a}) || IsLeast(m, rest + {a})
  {
    hide Dedup.LexLe;
    Dedup.LexTotal(a, m);
    Dedup.LexTotal(a, a);
    if Dedup.LexLe(a, m) {
      forall x | x in rest
        ensures Dedup.LexLe(a, x)
      {
        Dedup.LexTransitive(a, m, x);
      }
    }
  }

  lemma {:induction false} LeastExists(s: set<string>)
    requires s != {}
    ensures exists m :: IsLeast(m, s)
    decreases |s|
  {
    hide Dedup.LexLe;
    var a :| a in s;
    var rest := s - {a};
    assert s == rest + {a};
    if rest == {} {
      Dedup.LexTotal(a, a);
      assert IsLeast(a, s);
    } else {
      LeastExists(rest);
      var m :| IsLeast(m, rest);
      LeastNext(a, m, rest);
    }
  }

  /** `sorted(files)[0]`. */
  function Least(s: set<string>): string
    requires s != {}
  {
    LeastExists(s);
    LeastIsUnique(s);
    var m :| m in s && IsLeast(m, s);
    m
  }

  lemma LeastIsUnique(s: set<string>)
    ensures forall a, b | a in s && b in s && (forall x :: x in s ==> Dedup.LexLe(a, x) && Dedup.LexLe(b, x)) :: a == b
  {
    forall a, b | Dedup.LexLe(a, b) && Dedup.LexLe(b, a)
      ensures a == b
    {
      Dedup.LexTotal(a, b);
    }
  }

  function TwinReason(file: string): string {
    "the same method is reported where " + file + " declares it, and one signature is one decision"
  }

  /** The second pass on one finding, given all of them. */
  function Untwinned(p: Patterns, files: Dict<string>, findings: seq<Finding>, f: Finding): Finding {
    var elsewhere := Elsewhere(p, files, findings, f);
    if elsewhere == {} then f else f.Suppress(TwinReason(Least(elsewhere)))
  }

  function Mark(p: Patterns, files: Dict<string>): Finding -> Finding {
    (f: Finding) => Marked(p, files, f)
  }

  function MarkedAll(p: Patterns, files: Dict<string>, findings: seq<Finding>): seq<Finding> {
    Map(Mark(p, files), findings)
  }

  function Untwin(p: Patterns, files: Dict<string>, findings: seq<Finding>): Finding -> Finding {
    (f: Finding) => Untwinned(p, files, findings, f)
  }

  function UntwinnedAll(p: Patterns, files: Dict<string>, findings: seq<Finding>): seq<Finding> {
    Map(Untwin(p, files, findings), findings)
  }

  function Actionable(p: Patterns, files: Dict<string>, findings: seq<Finding>): seq<Finding> {
    UntwinnedAll(p, files, MarkedAll(p, files, findings))
  }

  // --- the same, line by line ---

  /** The review has the file's content: these lines. */
  ghost predicate HasLines(file: string, files: Dict<string>, lines: seq<string>) {
    exists k :: Picks(file, files, k) && lines == UnifiedDiff.SplitLines(files[k].1)
  }

  /** The finding points at line `n` of its file, counting from 0. */
  ghost predicate PointsAt(f: Finding, files: Dict<string>, lines: seq<string>, n: nat) {
    HasLines(f.file, files, lines) && f.line == Some(n + 1) && n < |lines|
  }

  /** A `…Standalone.java` with the line that tells. */
  ghost predicate Unwritten(p: Patterns, files: Dict<string>, f: Finding) {
    exists lines, k :: HasLines(f.file, files, lines) && 0 <= k < |lines| && p.generatedLine(lines[k])
                       && exists front: string :: f.file == front + "Standalone.java"
  }

  /** A Jalo manager with the line that tells. */
  ghost predicate EntryPoint(p: Patterns, files: Dict<string>, f: Finding) {
    exists lines, k :: HasLines(f.file, files, lines) && 0 <= k < |lines| && p.jaloPath(f.file) && p.jaloLine(lines[k])
  }

  /** The line pointed at is acknowledged. */
  ghost predicate Deliberate(p: Patterns, files: Dict<string>, f: Finding) {
    exists lines, n :: PointsAt(f, files, lines, n) && p.acknowledged(lines[n])
  }

  ghost predicate Silenced(p: Patterns, files: Dict<string>, f: Finding) {
    Unwritten(p, files, f) || EntryPoint(p, files, f) || Deliberate(p, files, f)
  }

  /** What the source itself says against a finding; the first that applies. */
  ghost function SourceSays(p: Patterns, files: Dict<string>, f: Finding): Option<string> {
    if Unwritten(p, files, f) then Some("generated by the SAP extension generator, not hand-written")
    else if EntryPoint(p, files, f) then Some("the extension's Jalo entry point, which exists to reach the Jalo layer")
    else if Deliberate(p, files, f) then Some("the author marked this line deliberate (NOPMD/NOSONAR)")
    else None
  }

  /** The finding points at a line that declares `name`. */
  ghost predicate OnMethod(p: Patterns, files: Dict<string>, f: Finding, name: string) {
    exists lines, n :: PointsAt(f, files, lines, n) && p.declares(lines[n]) == Some(name)
  }

  /** Of the lines above the one pointed at the last that is not blank marks an override. */
  ghost predicate OnOverride(p: Patterns, files: Dict<string>, f: Finding) {
    exists lines, n, j :: PointsAt(f, files, lines, n) && Above(lines, n, j) && p.overrides(lines[j])
  }

  ghost predicate Above(lines: seq<string>, n: nat, j: int) {
    n <= |lines| && 0 <= j < n && !AllSpace(lines[j]) && forall i :: j < i < n ==> AllSpace(lines[i])
  }

  /** Active finding `h` of the same rule, in another file, is about the declaration of the very method the line `f` points
      at overrides. */
  ghost predicate TwinOf(p: Patterns, files: Dict<string>, f: Finding, h: Finding) {
    && OnOverride(p, files, f) && !OnOverride(p, files, h)
    && !h.suppressed && !Silenced(p, files, h) && h.ruleId == f.ruleId && h.file != f.file
    && exists name :: OnMethod(p, files, f, name) && OnMethod(p, files, h, name)
  }

  ghost predicate IsTwin(p: Patterns, files: Dict<string>, findings: seq<Finding>, f: Finding) {
    exists h :: h in findings && TwinOf(p, files, f, h)
  }

  /** The muted twin names the first of the files, in the order of code points, where the method is declared. */
  ghost predicate NamesTwin(p: Patterns, files: Dict<string>, findings: seq<Finding>, f: Finding, reason: Option<string>) {
    exists h :: h in findings && TwinOf(p, files, f, h)
      && (forall g :: g in findings && TwinOf(p, files, f, g) ==> Dedup.CodePointsLe(h.file, g.file))
      && reason == Some("the same method is reported where " + h.file + " declares it, and one signature is one decision")
  }

  lemma SourceHas(file: string, files: Dict<string>, lines: seq<string>)
    ensures SourceOf(file, files) == Some(lines) <==> HasLines(file, files, lines)
  {
    hide LookupByPath, FirstExact, FirstRooted, NamesNone, UnifiedDiff.SplitLines;
    LookupPicks(file, files);
    PicksInside(file, files);
    if SourceOf(file, files) == Some(lines) {
      var k :| Picks(file, files, k);
      assert lines == UnifiedDiff.SplitLines(files[k].1);
    }
  }

  /** The source, when there is one, has the lines and no others. */
  lemma OneSource(file: string, files: Dict<string>)
    ensures match SourceOf(file, files) {
        case None => forall lines :: !HasLines(file, files, lines)
        case Some(lines) => HasLines(file, files, lines) && forall other :: HasLines(file, files, other) ==> other == lines
      }
  {
    hide SourceOf, HasLines;
    forall lines
      ensures SourceOf(file, files) == Some(lines) <==> HasLines(file, files, lines)
    {
      SourceHas(file, files, lines);
    }
  }

  lemma MarkedIsSilenced(p: Patterns, files: Dict<string>, f: Finding)
    ensures !Marked(p, files, f).suppressed <==> !f.suppressed && !Silenced(p, files, f)
  {
    hide Marked, Unwritten, EntryPoint, Deliberate;
    MarkedSays(p, files, f);
  }

  /** The first pass says what the source says. */
  lemma MarkedSays(p: Patterns, files: Dict<string>, f: Finding)
    ensures var why := SourceSays(p, files, f);
      Marked(p, files, f) == if why.Some? then f.(suppressed := true, reason := why) else f
  {
    hide SourceOf, HasLines, Unwritten, EntryPoint, Deliberate, IsGenerated, IsJaloManager, IsAcknowledged;
    OneSource(f.file, files);
    match SourceOf(f.file, files)
    case None =>
      NothingSaid(p, files, f);
    case Some(lines) =>
      GeneratedIs(p, files, f, lines);
      JaloIs(p, files, f, lines);
      AcknowledgedIs(p, files, f, lines);
  }

  lemma NothingSaid(p: Patterns, files: Dict<string>, f: Finding)
    requires forall lines :: !HasLines(f.file, files, lines)
    ensures !Silenced(p, files, f)
  {
    hide HasLines;
  }

  lemma GeneratedIs(p: Patterns, files: Dict<string>, f: Finding, lines: seq<string>)
    requires HasLines(f.file, files, lines) && forall other :: HasLines(f.file, files, other) ==> other == lines
    ensures Unwritten(p, files, f) <==> IsGenerated(p, f.file, lines)
  {
    hide HasLines, EndsWith;
    EndsIsFront(f.file, "Standalone.java");
    if IsGenerated(p, f.file, lines) {
      var k :| 0 <= k < |lines| && p.generatedLine(lines[k]);
    }
  }

  lemma JaloIs(p: Patterns, files: Dict<string>, f: Finding, lines: seq<string>)
    requires HasLines(f.file, files, lines) && forall other :: HasLines(f.file, files, other) ==> other == lines
    ensures EntryPoint(p, files, f) <==> IsJaloManager(p, f.file, lines)
  {
    hide HasLines;
    if IsJaloManager(p, f.file, lines) {
      var k :| 0 <= k < |lines| && p.jaloLine(lines[k]);
    }
  }

  lemma AcknowledgedIs(p: Patterns, files: Dict<string>, f: Finding, lines: seq<string>)
    requires HasLines(f.file, files, lines) && forall other :: HasLines(f.file, files, other) ==> other == lines
    ensures Deliberate(p, files, f) <==> IsAcknowledged(p, lines, f.line)
  {
    hide HasLines;
    if IsAcknowledged(p, lines, f.line) {
      assert PointsAt(f, files, lines, f.line.value - 1);
    }
  }

  lemma MethodIsOn(p: Patterns, files: Dict<string>, f: Finding, name: string)
    ensures MethodOf(p, files, f) == Some(name) <==> OnMethod(p, files, f, name)
  {
    hide SourceOf, HasLines;
    OneSource(f.file, files);
    if MethodOf(p, files, f) == Some(name) {
      assert PointsAt(f, files, SourceOf(f.file, files).value, f.line.value - 1);
    }
  }

  lemma {:induction false} LastIsAbove(lines: seq<string>, n: nat)
    requires n <= |lines|
    ensures forall j :: Above(lines, n, j) ==> LastNonBlank(lines, n) == Some(lines[j])
    ensures LastNonBlank(lines, n).Some? ==> exists j :: Above(lines, n, j)
  {
    hide Strip;
    if n > 0 {
      StripsToNothing(lines[n - 1]);
      if Strip(lines[n - 1]) != "" {
        assert Above(lines, n, n - 1);
      } else {
        var before: nat := n - 1;
        LastIsAbove(lines, before);
        forall j | Above(lines, n, j)
          ensures LastNonBlank(lines, n) == Some(lines[j])
        {
          assert Above(lines, before, j);
        }
        if j :| Above(lines, before, j) {
          assert Above(lines, n, j);
        }
      }
    }
  }

  lemma OverrideIsOn(p: Patterns, files: Dict<string>, f: Finding)
    ensures IsOverride(p, files, f) <==> OnOverride(p, files, f)
  {
    hide SourceOf, HasLines, LastNonBlank, Above;
    OneSource(f.file, files);
    match SourceOf(f.file, files)
    case None =>
    case Some(lines) =>
      if f.line.Some? && 1 <= f.line.value <= |lines| {
        var n: nat := f.line.value - 1;
        LastIsAbove(lines, n);
        assert PointsAt(f, files, lines, n);
        if IsOverride(p, files, f) {
          var j :| Above(lines, n, j);
          assert Above(lines, n, j) && 0 <= j < |lines| by { AboveInside(lines, n, j); }
          assert p.overrides(lines[j]);
        }
      }
  }

  lemma AboveInside(lines: seq<string>, n: nat, j: int)
    requires Above(lines, n, j)
    ensures 0 <= j < |lines|
  {
  }

  /** What becomes of `f` among `findings`: active exactly when it was, nobody silenced it and it is no twin; muted with
      the first thing to be said against it; and otherwise as it came. */
  ghost predicate Actioned(p: Patterns, files: Dict<string>, findings: seq<Finding>, f: Finding, out: Finding) {
    && out == f.(suppressed := out.suppressed, reason := out.reason)
    && (!out.suppressed <==> !f.suppressed && !Silenced(p, files, f) && !IsTwin(p, files, findings, f))
    && (Silenced(p, files, f) ==> out.reason == SourceSays(p, files, f))
    && (!Silenced(p, files, f) && (f.suppressed || !IsTwin(p, files, findings, f)) ==> out == f)
    && (!Silenced(p, files, f) && !f.suppressed && IsTwin(p, files, findings, f) ==>
          NamesTwin(p, files, findings, f, out.reason))
  }

  lemma ActionableKeeps(p: Patterns, files: Dict<string>, findings: seq<Finding>, k: nat)
    requires k < |findings|
    ensures Actioned(p, files, findings, findings[k], Actionable(p, files, findings)[k])
  {
    hide Marked, MethodOf, IsOverride, Unwritten, EntryPoint, Deliberate, TwinOf, NamesTwin, Least;
    var marked, f := MarkedAll(p, files, findings), findings[k];
    MarkedSays(p, files, f);
    if !marked[k].suppressed {
      if Elsewhere(p, files, marked, marked[k]) != {} {
        LeastIsNamed(p, files, findings, k);
      } else {
        NoTwin(p, files, findings, k);
      }
    }
  }

  lemma MarkedPlace(p: Patterns, files: Dict<string>, f: Finding)
    ensures var m := Marked(p, files, f);
      m.file == f.file && m.line == f.line && m.ruleId == f.ruleId
      && MethodOf(p, files, m) == MethodOf(p, files, f) && IsOverride(p, files, m) == IsOverride(p, files, f)
  {
    hide MethodOf, IsOverride, Marked;
    MarkedShape(p, files, f);
    SamePlaces(p, files, f, Marked(p, files, f));
  }

  lemma SamePlaces(p: Patterns, files: Dict<string>, f: Finding, g: Finding)
    requires g.file == f.file && g.line == f.line
    ensures MethodOf(p, files, g) == MethodOf(p, files, f) && IsOverride(p, files, g) == IsOverride(p, files, f)
  {
  }

  /** For a finding the first pass left active: where the method it overrides was reported. */
  lemma ElsewhereHolds(p: Patterns, files: Dict<string>, findings: seq<Finding>, k: nat, path: string)
    requires k < |findings| && !MarkedAll(p, files, findings)[k].suppressed
    ensures var marked := MarkedAll(p, files, findings);
      path in Elsewhere(p, files, marked, marked[k])
      <==> exists h :: h in findings && TwinOf(p, files, findings[k], h) && h.file == path
  {
    hide Marked, MethodOf, IsOverride, Elsewhere, TwinOf;
    var marked := MarkedAll(p, files, findings);
    if path in Elsewhere(p, files, marked, marked[k]) {
      ElsewhereIsTwin(p, files, findings, k, path);
    }
    if h :| h in findings && TwinOf(p, files, findings[k], h) && h.file == path {
      TwinHasElsewhere(p, files, findings, k, h);
    }
  }

  lemma ElsewhereIsTwin(p: Patterns, files: Dict<string>, findings: seq<Finding>, k: nat, path: string)
    requires k < |findings|
    requires var marked := MarkedAll(p, files, findings); path in Elsewhere(p, files, marked, marked[k])
    ensures exists h :: h in findings && TwinOf(p, files, findings[k], h) && h.file == path
  {
    hide Marked, MethodOf, IsOverride, Silenced, OnMethod, OnOverride;
    var marked, f := MarkedAll(p, files, findings), findings[k];
    MarkedPlace(p, files, f);
    OverrideIsOn(p, files, f);
    var name := MethodOf(p, files, marked[k]).value;
    MethodIsOn(p, files, f, name);
    var m :| m in marked && Declares(p, files, m, f.ruleId, name) && m.file == path;
    var j :| 0 <= j < |marked| && marked[j] == m;
    var h := findings[j];
    MarkedPlace(p, files, h);
    MarkedIsSilenced(p, files, h);
    OverrideIsOn(p, files, h);
    MethodIsOn(p, files, h, name);
    assert h in findings && TwinOf(p, files, f, h);
  }

  lemma TwinHasElsewhere(p: Patterns, files: Dict<string>, findings: seq<Finding>, k: nat, h: Finding)
    requires k < |findings| && h in findings && TwinOf(p, files, findings[k], h)
    requires !MarkedAll(p, files, findings)[k].suppressed
    ensures var marked := MarkedAll(p, files, findings); h.file in Elsewhere(p, files, marked, marked[k])
  {
    hide Marked, MethodOf, IsOverride, Silenced, OnMethod, OnOverride;
    var marked, f := MarkedAll(p, files, findings), findings[k];
    MarkedPlace(p, files, f);
    OverrideIsOn(p, files, f);
    var name :| OnMethod(p, files, f, name) && OnMethod(p, files, h, name);
    MethodIsOn(p, files, f, name);
    MethodIsOn(p, files, h, name);
    var j :| 0 <= j < |findings| && findings[j] == h;
    MarkedPlace(p, files, h);
    MarkedIsSilenced(p, files, h);
    OverrideIsOn(p, files, h);
    assert marked[j] in marked && Declares(p, files, marked[j], f.ruleId, name);
  }

  lemma NoTwin(p: Patterns, files: Dict<string>, findings: seq<Finding>, k: nat)
    requires k < |findings| && !MarkedAll(p, files, findings)[k].suppressed
    requires var marked := MarkedAll(p, files, findings); Elsewhere(p, files, marked, marked[k]) == {}
    ensures !IsTwin(p, files, findings, findings[k])
  {
    hide Marked, Elsewhere, TwinOf;
    forall h | h in findings
      ensures !TwinOf(p, files, findings[k], h)
    {
      ElsewhereHolds(p, files, findings, k, h.file);
    }
  }

  lemma LeastIsNamed(p: Patterns, files: Dict<string>, findings: seq<Finding>, k: nat)
    requires k < |findings| && !MarkedAll(p, files, findings)[k].suppressed
    requires var marked := MarkedAll(p, files, findings); Elsewhere(p, files, marked, marked[k]) != {}
    ensures var marked := MarkedAll(p, files, findings);
      && IsTwin(p, files, findings, findings[k])
      && NamesTwin(p, files, findings, findings[k], Some(TwinReason(Least(Elsewhere(p, files, marked, marked[k])))))
  {
    hide Marked, Elsewhere, TwinOf, Dedup.CodePointsLe;
    var marked, f := MarkedAll(p, files, findings), findings[k];
    var elsewhere := Elsewhere(p, files, marked, marked[k]);
    var least := Least(elsewhere);
    LeastIsFirst(elsewhere);
    ElsewhereHolds(p, files, findings, k, least);
    var h :| h in findings && TwinOf(p, files, f, h) && h.file == least;
    forall g | g in findings && TwinOf(p, files, f, g)
      ensures Dedup.CodePointsLe(h.file, g.file)
    {
      ElsewhereHolds(p, files, findings, k, g.file);
    }
  }

  lemma LeastIsFirst(s: set<string>)
    requires s != {}
    ensures Least(s) in s && forall x :: x in s ==> Dedup.CodePointsLe(Least(s), x)
  {
    LeastExists(s);
    LeastIsUnique(s);
    hide Dedup.LexLe, Dedup.CodePointsLe;
    forall x | x in s
      ensures Dedup.CodePointsLe(Least(s), x)
    {
      Dedup.LexIsCodePoints(Least(s), x);
    }
  }

  /** The memo of the sources read so far. */
  ghost predicate MemoOf(memo: map<string, Source>, files: Dict<string>) {
    forall path :: path in memo ==> memo[path] == SourceOf(path, files)
  }

  method ReadSource(memo: map<string, Source>, path: string, files: Dict<string>)
    returns (memo': map<string, Source>, source: Source)
    requires MemoOf(memo, files)
    ensures MemoOf(memo', files) && source == SourceOf(path, files)
  {
    memo' := memo;
    if path !in memo {
      memo' := memo[path := SourceOf(path, files)];
    }
    source := memo'[path];
  }

  /** Same findings in the same order; the only change is that some active ones are suppressed. */
  predicate OnlySuppresses(findings: seq<Finding>, out: seq<Finding>) {
    |out| == |findings| && forall k :: 0 <= k < |findings| ==> SuppressedOnly(findings[k], out[k])
  }

  predicate SuppressedOnly(f: Finding, g: Finding) {
    g == f.(suppressed := g.suppressed, reason := g.reason) && (IsActive(g) ==> g == f)
  }

  method DropUnactionable(p: Patterns, files: Dict<string>, findings: seq<Finding>) returns (out: seq<Finding>)
    ensures out == Actionable(p, files, findings)
    ensures OnlySuppresses(findings, out)
    ensures forall k :: 0 <= k < |findings| ==> Actioned(p, files, findings, findings[k], out[k])
  {
    hide Actioned;
    hide SourceOf, IsGenerated, IsJaloManager, IsAcknowledged, UntwinnedAll;
    var marked := [];
    var memo: map<string, Source> := map[];
    for k := 0 to |findings|
      invariant marked == Map(Mark(p, files), findings[..k]) && MemoOf(memo, files)
    {
      var f, lines := findings[k], None;
      memo, lines := ReadSource(memo, f.file, files);
      if lines.None? {
        marked := marked + [f];
      } else if IsGenerated(p, f.file, lines.value) {
        marked := marked + [f.Suppress(GENERATED)];
      } else if IsJaloManager(p, f.file, lines.value) {
        marked := marked + [f.Suppress(JALO)];
      } else if IsAcknowledged(p, lines.value, f.line) {
        marked := marked + [f.Suppress(ACKNOWLEDGED)];
      } else {
        marked := marked + [f];
      }
      MapNext(Mark(p, files), findings, k);
    }
    assert findings[..|findings|] == findings;
    out := DropOverrideTwins(p, files, marked);
    ActionableOnlySuppresses(p, files, findings);
    forall k | 0 <= k < |findings|
      ensures Actioned(p, files, findings, findings[k], out[k])
    {
      ActionableKeeps(p, files, findings, k);
    }
  }

  lemma ActionableOnlySuppresses(p: Patterns, files: Dict<string>, findings: seq<Finding>)
    ensures OnlySuppresses(findings, Actionable(p, files, findings))
  {
    hide Marked, Untwinned;
    var marked := MarkedAll(p, files, findings);
    forall k | 0 <= k < |findings|
      ensures SuppressedOnly(findings[k], Actionable(p, files, findings)[k])
    {
      MarkedShape(p, files, findings[k]);
      UntwinnedShape(p, files, marked, marked[k]);
    }
  }

  lemma MarkedShape(p: Patterns, files: Dict<string>, f: Finding)
    ensures SuppressedOnly(f, Marked(p, files, f))
  {
    hide SourceOf, IsGenerated, IsJaloManager, IsAcknowledged;
  }

  lemma UntwinnedShape(p: Patterns, files: Dict<string>, findings: seq<Finding>, f: Finding)
    ensures SuppressedOnly(f, Untwinned(p, files, findings, f))
  {
    hide Elsewhere, Least;
  }

  /** `declaring` groups the files of the first `k` findings by rule and method. */
  ghost predicate Grouped(p: Patterns, files: Dict<string>, findings: seq<Finding>,
                          declaring: map<(string, string), set<string>>) {
    && (forall key :: key in declaring ==> declaring[key] == DeclaringFiles(p, files, findings, key.0, key.1))
    && (forall key: (string, string) :: key !in declaring ==> DeclaringFiles(p, files, findings, key.0, key.1) == {})
  }

  method DropOverrideTwins(p: Patterns, files: Dict<string>, findings: seq<Finding>) returns (out: seq<Finding>)
    ensures out == UntwinnedAll(p, files, findings)
  {
    hide MethodOf, IsOverride, DeclaringFiles, Least;
    var declaring: map<(string, string), set<string>> := map[];
    GroupedNothing(p, files);
    for k := 0 to |findings|
      invariant Grouped(p, files, findings[..k], declaring)
    {
      var f := findings[k];
      var name := MethodOf(p, files, f);
      GroupedNext(p, files, findings[..k], f, declaring);
      assert findings[..k + 1] == findings[..k] + [f];
      if name.None? || f.suppressed || IsOverride(p, files, f) {
        continue;
      }
      var key := (f.ruleId, name.value);
      declaring := declaring[key := (if key in declaring then declaring[key] else {}) + {f.file}];
    }
    assert findings[..|findings|] == findings;
    out := [];
    for k := 0 to |findings|
      invariant out == Map(Untwin(p, files, findings), findings[..k])
    {
      var f := findings[k];
      var name := MethodOf(p, files, f);
      var key := (f.ruleId, if name.Some? then name.value else "");
      var elsewhere := (if key in declaring then declaring[key] else {}) - {f.file};
      if name.Some? && !f.suppressed && elsewhere != {} && IsOverride(p, files, f) {
        out := out + [f.Suppress(TwinReason(Least(elsewhere)))];
      } else {
        out := out + [f];
      }
      MapNext(Untwin(p, files, findings), findings, k);
    }
  }

  lemma GroupedNothing(p: Patterns, files: Dict<string>)
    ensures Grouped(p, files, [], map[])
  {
  }

  lemma GroupedNext(p: Patterns, files: Dict<string>, findings: seq<Finding>, f: Finding,
                    declaring: map<(string, string), set<string>>)
    requires Grouped(p, files, findings, declaring)
    ensures var name := MethodOf(p, files, f);
      var key := (f.ruleId, if name.Some? then name.value else "");
      Grouped(p, files, findings + [f],
        if name.None? || f.suppressed || IsOverride(p, files, f) then declaring
        else declaring[key := (if key in declaring then declaring[key] else {}) + {f.file}])
  {
    hide MethodOf, IsOverride;
    forall key: (string, string)
      ensures DeclaringFiles(p, files, findings + [f], key.0, key.1)
           == DeclaringFiles(p, files, findings, key.0, key.1)
              + (if Declares(p, files, f, key.0, key.1) then {f.file} else {})
    {
      assert forall x :: x in findings + [f] <==> x in findings || x == f;
    }
  }

  // --- what dropping promises ---

  /** A twin is dropped against a finding that is itself still active: one on another file's declaration of the
      same method, for the same rule. */
  lemma TwinHasKeeper(p: Patterns, files: Dict<string>, findings: seq<Finding>, k: nat) returns (keeper: Finding)
    requires k < |findings| && IsActive(findings[k]) && !IsActive(UntwinnedAll(p, files, findings)[k])
    ensures keeper in findings && keeper in UntwinnedAll(p, files, findings) && IsActive(keeper)
    ensures keeper.ruleId == findings[k].ruleId && keeper.file != findings[k].file
    ensures MethodOf(p, files, findings[k]).Some? && MethodOf(p, files, keeper) == MethodOf(p, files, findings[k])
  {
    var f := findings[k];
    var elsewhere := Elsewhere(p, files, findings, f);
    var file := Least(elsewhere);
    keeper :| keeper in findings && Declares(p, files, keeper, f.ruleId, MethodOf(p, files, f).value) && keeper.file == file;
    var j :| 0 <= j < |findings| && findings[j] == keeper;
    assert UntwinnedAll(p, files, findings)[j] == keeper;
  }

  /** Active findings on one rule and one method. */
  predicate Reports(p: Patterns, files: Dict<string>, findings: seq<Finding>, ruleId: string, name: string) {
    exists k :: 0 <= k < |findings| && IsActive(findings[k]) && findings[k].ruleId == ruleId
                && MethodOf(p, files, findings[k]) == Some(name)
  }

  /** No decision is lost: a rule and method reported before the twins are dropped are reported after. */
  lemma NoDecisionIsLost(p: Patterns, files: Dict<string>, findings: seq<Finding>, ruleId: string, name: string)
    ensures Reports(p, files, findings, ruleId, name) <==> Reports(p, files, UntwinnedAll(p, files, findings), ruleId, name)
  {
    hide Reports, UntwinnedAll;
    if Reports(p, files, findings, ruleId, name) {
      StaysReported(p, files, findings, ruleId, name);
    }
    if Reports(p, files, UntwinnedAll(p, files, findings), ruleId, name) {
      WasReported(p, files, findings, ruleId, name);
    }
  }

  /** What is active afterwards is as it was. */
  lemma Untouched(p: Patterns, files: Dict<string>, findings: seq<Finding>, k: nat)
    requires k < |findings|
    ensures var out := UntwinnedAll(p, files, findings);
      |out| == |findings| && (IsActive(out[k]) ==> out[k] == findings[k])
  {
    hide MethodOf, Elsewhere;
  }

  lemma StaysReported(p: Patterns, files: Dict<string>, findings: seq<Finding>, ruleId: string, name: string)
    requires Reports(p, files, findings, ruleId, name)
    ensures Reports(p, files, UntwinnedAll(p, files, findings), ruleId, name)
  {
    hide MethodOf, Elsewhere, UntwinnedAll, IsActive;
    var out := UntwinnedAll(p, files, findings);
    var k :| 0 <= k < |findings| && IsActive(findings[k]) && findings[k].ruleId == ruleId
             && MethodOf(p, files, findings[k]) == Some(name);
    Untouched(p, files, findings, k);
    if !IsActive(out[k]) {
      var keeper := TwinHasKeeper(p, files, findings, k);
      var j :| 0 <= j < |out| && out[j] == keeper;
      assert out[j] == keeper;
    }
  }

  lemma WasReported(p: Patterns, files: Dict<string>, findings: seq<Finding>, ruleId: string, name: string)
    requires Reports(p, files, UntwinnedAll(p, files, findings), ruleId, name)
    ensures Reports(p, files, findings, ruleId, name)
  {
    hide MethodOf, Elsewhere, UntwinnedAll, IsActive;
    var out := UntwinnedAll(p, files, findings);
    var k :| 0 <= k < |out| && IsActive(out[k]) && out[k].ruleId == ruleId && MethodOf(p, files, out[k]) == Some(name);
    if k < |findings| {
      Untouched(p, files, findings, k);
    } else {
      UntwinnedLength(p, files, findings);
    }
  }

  lemma UntwinnedLength(p: Patterns, files: Dict<string>, findings: seq<Finding>)
    ensures |UntwinnedAll(p, files, findings)| == |findings|
  {
  }

  /** Dropping twins takes no declaration away, so the groups stay. */
  lemma GroupsSurvive(p: Patterns, files: Dict<string>, findings: seq<Finding>, ruleId: string, name: string)
    ensures DeclaringFiles(p, files, UntwinnedAll(p, files, findings), ruleId, name)
         == DeclaringFiles(p, files, findings, ruleId, name)
  {
    hide MethodOf, IsOverride, Least;
    var out := UntwinnedAll(p, files, findings);
    forall f
      ensures f in out && Declares(p, files, f, ruleId, name) <==> f in findings && Declares(p, files, f, ruleId, name)
    {
      if f in findings && Declares(p, files, f, ruleId, name) {
        var k :| 0 <= k < |findings| && findings[k] == f;
        assert out[k] == f;
      }
      if f in out && Declares(p, files, f, ruleId, name) {
        var k :| 0 <= k < |out| && out[k] == f;
        assert findings[k] == f;
      }
    }
  }

  lemma UntwinnedTwice(p: Patterns, files: Dict<string>, findings: seq<Finding>)
    ensures UntwinnedAll(p, files, UntwinnedAll(p, files, findings)) == UntwinnedAll(p, files, findings)
  {
    hide MethodOf, IsOverride, Least, DeclaringFiles;
    var out := UntwinnedAll(p, files, findings);
    forall k | 0 <= k < |out|
      ensures Untwinned(p, files, out, out[k]) == out[k]
    {
      if IsActive(out[k]) && MethodOf(p, files, out[k]).Some? {
        GroupsSurvive(p, files, findings, out[k].ruleId, MethodOf(p, files, out[k]).value);
      }
    }
  }

  /** A second run of the whole pass changes nothing. */
  lemma ActionableTwice(p: Patterns, files: Dict<string>, findings: seq<Finding>)
    ensures Actionable(p, files, Actionable(p, files, findings)) == Actionable(p, files, findings)
  {
    hide Marked, MethodOf, IsOverride, DeclaringFiles, Least;
    var marked := MarkedAll(p, files, findings);
    var out := UntwinnedAll(p, files, marked);
    forall k | 0 <= k < |out|
      ensures Marked(p, files, out[k]) == out[k]
    {
      MarkedStays(p, files, findings[k], out[k]);
    }
    assert MarkedAll(p, files, out) == out;
    UntwinnedTwice(p, files, marked);
  }

  /** The first pass looks at file and line only, and a finding it left active stays as the second pass made it. */
  lemma MarkedStays(p: Patterns, files: Dict<string>, f: Finding, g: Finding)
    requires var m := Marked(p, files, f);
      g == m || (IsActive(m) && g.reason.Some? && g == m.Suppress(g.reason.value))
    ensures Marked(p, files, g) == g
  {
    hide SourceOf, IsGenerated, IsJaloManager, IsAcknowledged;
  }
}
