// The unified-diff reader: a line state machine with a buffered hunk, and the line counters of one hunk.
module UnifiedDiff {
  import opened Strings

  datatype Status = Added | Modified | Deleted

  datatype Hunk = Hunk(oldStart: nat, oldLines: nat, newStart: nat, newLines: nat, content: string)

  datatype FileDiff = FileDiff(path: string, status: Status, hunks: seq<Hunk>)

  // --- decimal numbers ---

  predicate IsDigit(c: char) {
    '0' <= c <= '9'
  }

  function Digit(c: char): nat
    requires IsDigit(c)
  {
    c as int - '0' as int
  }

  function Value(s: string): nat
    requires forall k :: 0 <= k < |s| ==> IsDigit(s[k])
  {
    if s == [] then 0 else 10 * Value(s[..|s| - 1]) + Digit(s[|s| - 1])
  }

  function Decimal(n: nat): (s: string)
    ensures s != [] && forall k :: 0 <= k < |s| ==> IsDigit(s[k])
    ensures Value(s) == n
  {
    if n < 10 then ['0' + n as char] else Decimal(n / 10) + ['0' + (n % 10) as char]
  }

  function DigitsEnd(s: string, i: nat): (j: nat)
    requires i <= |s|
    ensures i <= j <= |s| && forall k :: i <= k < j ==> IsDigit(s[k])
    ensures j < |s| ==> !IsDigit(s[j])
    decreases |s| - i
  {
    if i < |s| && IsDigit(s[i]) then DigitsEnd(s, i + 1) else i
  }

  /** `(\d+)` at offset `i`: the number and the offset behind it. */
  function Number(s: string, i: nat): (r: Option<(nat, nat)>)
    requires i <= |s|
    ensures r.Some? ==> i < r.value.1 <= |s|
  {
    var j := DigitsEnd(s, i);
    if j == i then None else Some((Value(s[i..j]), j))
  }

  datatype Range = Range(start: nat, count: Option<nat>, next: nat)

  /** `(\d+)(?:,(\d+))?` at offset `i`. */
  function RangeAt(s: string, i: nat): (r: Option<Range>)
    requires i <= |s|
    ensures r.Some? ==> r.value.next <= |s|
  {
    match Number(s, i)
    case None => None
    case Some((a, j)) =>
      if j < |s| && s[j] == ',' && Number(s, j + 1).Some? then
        var (b, k) := Number(s, j + 1).value;
        Some(Range(a, Some(b), k))
      else Some(Range(a, None, j))
  }

  function OrOne(count: Option<nat>): nat {
    if count.Some? then count.value else 1
  }

  /** A hunk header, or nothing when the line is none. */
  function HunkHeader(line: string): Option<Hunk> {
    if !At(line, 0, "@@ -") then None
    else
      match RangeAt(line, 4)
      case None => None
      case Some(a) =>
        if !At(line, a.next, " +") then None
        else
          match RangeAt(line, a.next + 2)
          case None => None
          case Some(b) =>
            if !At(line, b.next, " @@") then None
            else Some(Hunk(a.start, OrOne(a.count), b.start, OrOne(b.count), ""))
  }

  // --- the header of a file ---

  /** The last ` b/` at or before `q` with a path in front of it. */
  function LastB(line: string, q: nat): Option<nat> {
    if q < 14 then None else if At(line, q, " b/") then Some(q) else LastB(line, q - 1)
  }

  /** What the greedy pattern `^diff --git a/.+ b/(.+)$` captures. */
  function HeaderPath(line: string): Option<string> {
    if !At(line, 0, "diff --git a/") || |line| < 4 then None
    else
      match LastB(line, |line| - 4)
      case None => None
      case Some(q) => if q + 3 <= |line| then Some(line[q + 3..]) else None
  }

  // --- the reader ---

  datatype Reader = Reader(files: seq<FileDiff>, file: Option<FileDiff>, hunk: Option<Hunk>, lines: seq<string>)

  const Empty := Reader([], None, None, [])

  /** Close the hunk being read. */
  function Flush(r: Reader): Reader {
    if r.hunk.Some? && r.file.Some? then
      var hunk := r.hunk.value.(content := Join(r.lines, '\n'));
      r.(file := Some(r.file.value.(hunks := r.file.value.hunks + [hunk])), hunk := None, lines := [])
    else r.(hunk := None, lines := [])
  }

  function Finish(r: Reader): seq<FileDiff> {
    var r := Flush(r);
    if r.file.Some? then r.files + [r.file.value] else r.files
  }

  function ReadLine(r: Reader, line: string): Reader {
    if HeaderPath(line).Some? then
      Reader(Finish(r), Some(FileDiff(HeaderPath(line).value, Modified, [])), None, [])
    else if r.file.None? then r
    else
      var file := r.file.value;
      if StartsWith(line, "new file mode") then r.(file := Some(file.(status := Added)))
      else if StartsWith(line, "deleted file mode") then r.(file := Some(file.(status := Deleted)))
      else if StartsWith(line, "+++ b/") then r.(file := Some(file.(path := line[6..])))
      else if line == "+++ /dev/null" then r.(file := Some(file.(status := Deleted)))
      else if line == "--- /dev/null" then r.(file := Some(file.(status := Added)))
      else if HunkHeader(line).Some? then Flush(r).(hunk := HunkHeader(line), lines := [line])
      else if r.hunk.Some? then r.(lines := r.lines + [line])
      else r
  }

  function ReadAll(r: Reader, lines: seq<string>): Reader
    decreases |lines|
  {
    if lines == [] then r else ReadAll(ReadLine(r, lines[0]), lines[1..])
  }

  /** `str.splitlines` on text whose only separator is the line feed. */
  function SplitLines(text: string): seq<string> {
    var lines := Split(text, '\n');
    if lines[|lines| - 1] == "" then lines[..|lines| - 1] else lines
  }

  function Parse(text: string): seq<FileDiff> {
    Finish(ReadAll(Empty, SplitLines(text)))
  }

  /** The reader as written. */
  method ParseUnifiedDiff(text: string) returns (files: seq<FileDiff>)
    ensures files == Parse(text)
    ensures forall patch | Printable(patch) && Text(patch) == text ::
              files == AllAsRead(patch) && (files == Meanings(patch) <==> WellFormed(patch))
  {
    hide AllAsRead, Meanings, WellFormed, Printable, Text;
    files := [];
    var file: Option<FileDiff>, hunk: Option<Hunk>, hunkLines: seq<string> := None, None, [];
    var lines := SplitLines(text);
    for k := 0 to |lines|
      invariant ReadAll(Empty, lines) == ReadAll(Reader(files, file, hunk, hunkLines), lines[k..])
    {
      var line := lines[k];
      ghost var before := Reader(files, file, hunk, hunkLines);
      assert lines[k..][0] == line && lines[k..][1..] == lines[k + 1..];
      var header := HeaderPath(line);
      if header.Some? {
        file, hunk, hunkLines := FlushHunk(file, hunk, hunkLines);
        if file.Some? {
          files := files + [file.value];
        }
        file := Some(FileDiff(header.value, Modified, []));
      } else if file.Some? {
        if StartsWith(line, "new file mode") {
          file := Some(file.value.(status := Added));
        } else if StartsWith(line, "deleted file mode") {
          file := Some(file.value.(status := Deleted));
        } else if StartsWith(line, "+++ b/") {
          file := Some(file.value.(path := line[6..]));
        } else if line == "+++ /dev/null" {
          file := Some(file.value.(status := Deleted));
        } else if line == "--- /dev/null" {
          file := Some(file.value.(status := Added));
        } else if HunkHeader(line).Some? {
          file, hunk, hunkLines := FlushHunk(file, hunk, hunkLines);
          hunk, hunkLines := HunkHeader(line), [line];
        } else if hunk.Some? {
          hunkLines := hunkLines + [line];
        }
      }
      assert Reader(files, file, hunk, hunkLines) == ReadLine(before, line);
    }
    ghost var last := Reader(files, file, hunk, hunkLines);
    assert ReadAll(Empty, lines) == last;
    file, hunk, hunkLines := FlushHunk(file, hunk, hunkLines);
    if file.Some? {
      files := files + [file.value];
    }
    forall patch | Printable(patch) && Text(patch) == text
      ensures files == AllAsRead(patch) && (files == Meanings(patch) <==> WellFormed(patch))
    {
      PrintedReads(patch);
      ParsePrinted(patch);
    }
  }

  method FlushHunk(file: Option<FileDiff>, hunk: Option<Hunk>, lines: seq<string>)
    returns (file': Option<FileDiff>, hunk': Option<Hunk>, lines': seq<string>)
    ensures forall files :: Reader(files, file', hunk', lines') == Flush(Reader(files, file, hunk, lines))
  {
    file' := file;
    if hunk.Some? && file.Some? {
      var closed := hunk.value.(content := Join(lines, '\n'));
      file' := Some(file.value.(hunks := file.value.hunks + [closed]));
    }
    hunk', lines' := None, [];
  }

  // --- printed patches: POSIX.1-2017, diff utility, section "Diff -u or -U Output Format" ---

  /** One line of a hunk body. */
  datatype Edit = Context(text: string) | Add(text: string) | Remove(text: string) | NoNewline

  /** A hunk with its ranges as written: a count of one may be left out. */
  datatype PatchHunk = PatchHunk(oldStart: nat, oldCount: Option<nat>, newStart: nat, newCount: Option<nat>,
                                 heading: string, body: seq<Edit>)

  /** A file of a patch, under its old and its new path; `extra` holds lines such as `index 1..2 100644` or `rename to p`,
      or a binary patch. */
  datatype PatchFile = PatchFile(from: string, path: string, status: Status, extra: seq<string>, hunks: seq<PatchHunk>)

  function EditLine(e: Edit): string {
    match e
    case Context(t) => " " + t
    case Add(t) => "+" + t
    case Remove(t) => "-" + t
    case NoNewline => "\\ No newline at end of file"
  }

  function EditLines(body: seq<Edit>): (r: seq<string>)
    ensures |r| == |body| && forall k :: 0 <= k < |body| ==> r[k] == EditLine(body[k])
  {
    seq(|body|, k requires 0 <= k < |body| => EditLine(body[k]))
  }

  function RangeText(start: nat, count: Option<nat>): string {
    Decimal(start) + (if count.Some? then "," + Decimal(count.value) else "")
  }

  function HeaderLine(h: PatchHunk): string {
    "@@ -" + RangeText(h.oldStart, h.oldCount) + " +" + RangeText(h.newStart, h.newCount) + " @@" + h.heading
  }

  function HunkLines(h: PatchHunk): seq<string> {
    [HeaderLine(h)] + EditLines(h.body)
  }

  function AllHunkLines(hunks: seq<PatchHunk>): seq<string> {
    if hunks == [] then [] else HunkLines(hunks[0]) + AllHunkLines(hunks[1..])
  }

  function ModeLines(status: Status): seq<string> {
    match status
    case Added => ["new file mode 100644"]
    case Deleted => ["deleted file mode 100644"]
    case Modified => []
  }

  function SideLines(f: PatchFile): seq<string> {
    if f.hunks == [] then []
    else [if f.status.Added? then "--- /dev/null" else "--- a/" + f.from,
          if f.status.Deleted? then "+++ /dev/null" else "+++ b/" + f.path]
  }

  function GitLine(from: string, path: string): string {
    "diff --git a/" + from + " b/" + path
  }

  function FileLines(f: PatchFile): seq<string> {
    [GitLine(f.from, f.path)] + ModeLines(f.status) + f.extra + SideLines(f) + AllHunkLines(f.hunks)
  }

  function PatchLines(patch: seq<PatchFile>): seq<string> {
    if patch == [] then [] else FileLines(patch[0]) + PatchLines(patch[1..])
  }

  /** Every line ended by a line feed. */
  function Unlines(lines: seq<string>): string {
    if lines == [] then [] else lines[0] + ['\n'] + Unlines(lines[1..])
  }

  function Text(patch: seq<PatchFile>): string {
    Unlines(PatchLines(patch))
  }

  // --- what a printed patch means ---

  /** How many lines a printed range spans: one when it gives no count. */
  function Span(count: Option<nat>): nat {
    match count
    case None => 1
    case Some(n) => n
  }

  function HunkMeaning(h: PatchHunk): Hunk {
    Hunk(h.oldStart, Span(h.oldCount), h.newStart, Span(h.newCount), Join(HunkLines(h), '\n'))
  }

  function HunkMeanings(hunks: seq<PatchHunk>): (r: seq<Hunk>)
    ensures |r| == |hunks| && forall k :: 0 <= k < |hunks| ==> r[k] == HunkMeaning(hunks[k])
  {
    seq(|hunks|, k requires 0 <= k < |hunks| => HunkMeaning(hunks[k]))
  }

  function FileMeaning(f: PatchFile): FileDiff {
    FileDiff(f.path, f.status, HunkMeanings(f.hunks))
  }

  function Meanings(patch: seq<PatchFile>): (r: seq<FileDiff>)
    ensures |r| == |patch| && forall k :: 0 <= k < |patch| ==> r[k] == FileMeaning(patch[k])
  {
    seq(|patch|, k requires 0 <= k < |patch| => FileMeaning(patch[k]))
  }

  // --- which patches print well ---

  /** A line the reader passes over outside a hunk. */
  predicate Noise(line: string) {
    && HeaderPath(line).None? && HunkHeader(line).None?
    && !StartsWith(line, "new file mode") && !StartsWith(line, "deleted file mode")
    && !StartsWith(line, "+++ b/") && line != "+++ /dev/null" && line != "--- /dev/null"
  }

  /** A body line that reads as a file header line. */
  predicate ReadsAsHeader(e: Edit) {
    match e
    case Add(t) => StartsWith(t, "++ b/") || t == "++ /dev/null"
    case Remove(t) => t == "-- /dev/null"
    case _ => false
  }

  predicate OneLine(e: Edit) {
    e.NoNewline? || '\n' !in e.text
  }

  predicate BodyFits(e: Edit) {
    OneLine(e) && !ReadsAsHeader(e)
  }

  /** A hunk each of whose lines prints as one. */
  predicate HunkPrints(h: PatchHunk) {
    '\n' !in h.heading && forall k :: 0 <= k < |h.body| ==> OneLine(h.body[k])
  }

  predicate HunkFits(h: PatchHunk) {
    '\n' !in h.heading && forall k :: 0 <= k < |h.body| ==> BodyFits(h.body[k])
  }

  /** A path is read off its `+++` line; where there is none it must not hold the separator of the git line. */
  predicate FilePrints(f: PatchFile) {
    && f.from != "" && '\n' !in f.from && f.path != "" && '\n' !in f.path
    && (f.hunks == [] || f.status.Deleted? ==> forall i: nat :: i < |f.path| ==> !At(f.path, i, " b/"))
    && (forall k :: 0 <= k < |f.extra| ==> Noise(f.extra[k]) && '\n' !in f.extra[k])
    && (forall k :: 0 <= k < |f.hunks| ==> HunkPrints(f.hunks[k]))
  }

  predicate FileFits(f: PatchFile) {
    FilePrints(f) && forall k :: 0 <= k < |f.hunks| ==> HunkFits(f.hunks[k])
  }

  /** Files whose lines print as one each, whatever their bodies hold. */
  predicate Printable(patch: seq<PatchFile>) {
    forall k :: 0 <= k < |patch| ==> FilePrints(patch[k])
  }

  /** And none of a body reads as a file header line. */
  predicate WellFormed(patch: seq<PatchFile>) {
    forall k :: 0 <= k < |patch| ==> FileFits(patch[k])
  }

  // --- what the reader makes of a printed patch ---

  /** A body line that reads as a file header line changes the file under way. */
  function TurnedBy(file: FileDiff, e: Edit): FileDiff {
    match e
    case Add(t) =>
      if StartsWith(t, "++ b/") then file.(path := t[5..])
      else if t == "++ /dev/null" then file.(status := Deleted)
      else file
    case Remove(t) => if t == "-- /dev/null" then file.(status := Status.Added) else file
    case _ => file
  }

  function Turned(file: FileDiff, body: seq<Edit>): FileDiff
    decreases |body|
  {
    if body == [] then file else Turned(TurnedBy(file, body[0]), body[1..])
  }

  /** And is no line of the hunk. */
  function Remaining(body: seq<Edit>): seq<Edit> {
    if body == [] then [] else (if ReadsAsHeader(body[0]) then [] else [body[0]]) + Remaining(body[1..])
  }

  function HunkAsRead(h: PatchHunk): Hunk {
    HunkMeaning(h.(body := Remaining(h.body)))
  }

  function FileWith(file: FileDiff, hunks: seq<PatchHunk>): FileDiff
    decreases |hunks|
  {
    if hunks == [] then file
    else FileWith(Turned(file, hunks[0].body).(hunks := file.hunks + [HunkAsRead(hunks[0])]), hunks[1..])
  }

  function FileAsRead(f: PatchFile): FileDiff {
    FileWith(FileDiff(f.path, f.status, []), f.hunks)
  }

  function AllAsRead(patch: seq<PatchFile>): (r: seq<FileDiff>)
    ensures |r| == |patch| && forall k :: 0 <= k < |patch| ==> r[k] == FileAsRead(patch[k])
  {
    seq(|patch|, k requires 0 <= k < |patch| => FileAsRead(patch[k]))
  }

  // --- reading back what was printed ---

  lemma {:induction false} ReadInTwo(r: Reader, a: seq<string>, b: seq<string>)
    ensures ReadAll(r, a + b) == ReadAll(ReadAll(r, a), b)
    decreases |a|
  {
    if a == [] {
      assert a + b == b;
    } else {
      assert (a + b)[1..] == a[1..] + b;
      ReadInTwo(ReadLine(r, a[0]), a[1..], b);
    }
  }

  lemma ReadOne(r: Reader, line: string)
    ensures ReadAll(r, [line]) == ReadLine(r, line)
  {
    assert [line][1..] == [];
  }

  lemma {:induction false} SplitUnlines(lines: seq<string>)
    requires forall k :: 0 <= k < |lines| ==> '\n' !in lines[k]
    ensures Split(Unlines(lines), '\n') == lines + [""]
  {
    if lines == [] {
    } else {
      SplitUnlines(lines[1..]);
      SplitAtCut(lines[0], Unlines(lines[1..]), '\n');
      assert [lines[0]] + (lines[1..] + [""]) == lines + [""];
    }
  }

  lemma SplitLinesUnlines(lines: seq<string>)
    requires forall k :: 0 <= k < |lines| ==> '\n' !in lines[k]
    ensures SplitLines(Unlines(lines)) == lines
  {
    SplitUnlines(lines);
    assert (lines + [""])[..|lines|] == lines;
  }

  // numbers

  lemma NumberPrinted(s: string, i: nat, n: nat)
    requires At(s, i, Decimal(n))
    requires i + |Decimal(n)| < |s| ==> !IsDigit(s[i + |Decimal(n)|])
    ensures i <= |s| && Number(s, i) == Some((n, i + |Decimal(n)|))
  {
    var j := i + |Decimal(n)|;
    assert s[i..j] == Decimal(n);
    forall k | i <= k < j
      ensures IsDigit(s[k])
    {
      assert s[k] == s[i..j][k - i];
    }
    DigitsEndIs(s, i, j);
  }

  lemma {:induction false} DigitsEndIs(s: string, i: nat, j: nat)
    requires i <= j <= |s| && (forall k :: i <= k < j ==> IsDigit(s[k])) && (j < |s| ==> !IsDigit(s[j]))
    ensures DigitsEnd(s, i) == j
    decreases j - i
  {
    if i < j {
      DigitsEndIs(s, i + 1, j);
    }
  }

  lemma RangePrinted(s: string, i: nat, start: nat, count: Option<nat>)
    requires At(s, i, RangeText(start, count) + " ")
    ensures i <= |s| && RangeAt(s, i) == Some(Range(start, count, i + |RangeText(start, count)|))
  {
    hide At, Decimal;
    var text := RangeText(start, count);
    AtConcat(s, i, text, " ");
    AtOne(s, i + |text|, ' ');
    match count
    case None =>
      assert text == Decimal(start);
      NumberPrinted(s, i, start);
    case Some(n) =>
      var j := i + |Decimal(start)|;
      AtConcat(s, i, Decimal(start), "," + Decimal(n));
      AtConcat(s, j, ",", Decimal(n));
      AtOne(s, j, ',');
      NumberPrinted(s, i, start);
      NumberPrinted(s, j + 1, n);
  }

  lemma HeaderPrinted(h: PatchHunk)
    ensures HunkHeader(HeaderLine(h)) == Some(HunkMeaning(h).(content := ""))
  {
    hide At, RangeText, RangeAt;
    var s := HeaderLine(h);
    var a, b := RangeText(h.oldStart, h.oldCount), RangeText(h.newStart, h.newCount);
    AtWhole(s);
    assert s == "@@ -" + (a + (" +" + (b + (" @@" + h.heading))));
    AtConcat(s, 0, "@@ -", a + (" +" + (b + (" @@" + h.heading))));
    AtConcat(s, 4, a, " +" + (b + (" @@" + h.heading)));
    var i := 4 + |a|;
    AtConcat(s, i, " +", b + (" @@" + h.heading));
    AtConcat(s, i + 2, b, " @@" + h.heading);
    var j := i + 2 + |b|;
    AtConcat(s, j, " @@", h.heading);
    assert " +" == " " + "+" && " @@" == " " + "@@";
    AtConcat(s, i, " ", "+");
    AtConcat(s, j, " ", "@@");
    AtConcat(s, 4, a, " ");
    AtConcat(s, i + 2, b, " ");
    RangePrinted(s, 4, h.oldStart, h.oldCount);
    RangePrinted(s, i + 2, h.newStart, h.newCount);
  }

  lemma AtWhole(s: string)
    ensures At(s, 0, s)
  {
    assert s[0..|s|] == s;
  }

  // the header of a file

  lemma {:induction false} LastBFound(line: string, q: nat, p: nat)
    requires 14 <= p <= q && At(line, p, " b/")
    ensures LastB(line, q).Some? && p <= LastB(line, q).value <= q && At(line, LastB(line, q).value, " b/")
    decreases q
  {
    if !At(line, q, " b/") {
      LastBFound(line, q - 1, p);
    }
  }

  lemma GitLineReads(from: string, path: string)
    requires from != "" && path != ""
    ensures HeaderPath(GitLine(from, path)).Some?
    ensures (forall i: nat :: i < |path| ==> !At(path, i, " b/")) ==> HeaderPath(GitLine(from, path)) == Some(path)
  {
    var line, p := GitLine(from, path), 13 + |from|;
    assert line[0..13] == "diff --git a/";
    assert line[p..p + 3] == " b/" && line[p + 3..] == path;
    LastBFound(line, |line| - 4, p);
    SeparatorIsLast(line, p, path, LastB(line, |line| - 4).value);
  }

  /** A ` b/` that starts behind the separator lies in the path. */
  lemma SeparatorIsLast(line: string, p: nat, path: string, q: nat)
    requires p + 3 <= |line| && line[p..p + 3] == " b/" && line[p + 3..] == path
    requires p <= q && At(line, q, " b/")
    ensures p == q || (q - (p + 3) >= 0 && At(path, q - (p + 3), " b/"))
  {
    assert line[q] == line[q..q + 3][0] == ' ';
    assert line[p + 1] == line[p..p + 3][1] == 'b' && line[p + 2] == line[p..p + 3][2] == '/';
    if p < q {
      var i := q - (p + 3);
      assert path[i..i + 3] == line[q..q + 3];
    }
  }

  // the pieces of a printed file

  lemma {:induction false} ReadNoise(r: Reader, lines: seq<string>)
    requires r.file.Some? && r.hunk.None? && forall k :: 0 <= k < |lines| ==> Noise(lines[k])
    ensures ReadAll(r, lines) == r
    decreases |lines|
  {
    if lines != [] {
      ReadNoise(r, lines[1..]);
    }
  }

  /** A line that starts with `word` agrees with it on every character. */
  lemma Agrees(line: string, word: string, k: nat)
    requires k < |word| && (At(line, 0, word) || StartsWith(line, word))
    ensures k < |line| && line[k] == word[k]
  {
    assert At(line, 0, word) ==> line[0..|word|][k] == line[k];
  }

  /** A line is no file header line when its first character is none of theirs. */
  lemma FirstCharDecides(line: string, c: char)
    requires line != "" && line[0] == c
    ensures c != 'd' ==> HeaderPath(line).None? && !StartsWith(line, "deleted file mode")
    ensures c != '@' ==> HunkHeader(line).None?
    ensures c != 'n' ==> !StartsWith(line, "new file mode")
    ensures c != '+' ==> !StartsWith(line, "+++ b/") && line != "+++ /dev/null"
    ensures c != '-' ==> line != "--- /dev/null"
  {
    assert forall word | word != [] && (At(line, 0, word) || StartsWith(line, word)) :: word[0] == c by {
      forall word | word != [] && (At(line, 0, word) || StartsWith(line, word))
        ensures word[0] == c
      {
        Agrees(line, word, 0);
      }
    }
    assert At(line, 0, "diff --git a/") ==> "diff --git a/"[0] == c;
    assert StartsWith(line, "deleted file mode") ==> "deleted file mode"[0] == c;
    assert At(line, 0, "@@ -") ==> "@@ -"[0] == c;
    assert StartsWith(line, "new file mode") ==> "new file mode"[0] == c;
    assert StartsWith(line, "+++ b/") ==> "+++ b/"[0] == c;
  }

  lemma SameTail(c: char, t: string, word: string)
    ensures StartsWith([c] + t, [c] + word) <==> StartsWith(t, word)
    ensures [c] + t == [c] + word <==> t == word
  {
    assert ([c] + t)[1..] == t && ([c] + word)[1..] == word;
    if StartsWith([c] + t, [c] + word) {
      assert forall k :: 0 <= k < |word| ==> t[k] == ([c] + t)[k + 1] == ([c] + word)[k + 1] == word[k];
    }
  }

  lemma AddIsText(t: string)
    requires !StartsWith(t, "++ b/") && t != "++ /dev/null"
    ensures Noise("+" + t)
  {
    assert "+" + "++ b/" == "+++ b/" && "+" + "++ /dev/null" == "+++ /dev/null";
    hide HeaderPath, HunkHeader, StartsWith;
    FirstCharDecides("+" + t, '+');
    SameTail('+', t, "++ b/");
    SameTail('+', t, "++ /dev/null");
  }

  lemma RemoveIsText(t: string)
    requires t != "-- /dev/null"
    ensures Noise("-" + t)
  {
    assert "-" + "-- /dev/null" == "--- /dev/null";
    hide HeaderPath, HunkHeader, StartsWith;
    FirstCharDecides("-" + t, '-');
    SameTail('-', t, "-- /dev/null");
  }

  lemma EditIsText(e: Edit)
    requires BodyFits(e)
    ensures var line := EditLine(e);
      Noise(line) && '\n' !in line && line != ""
  {
    hide HeaderPath, HunkHeader, StartsWith;
    match e
    case Add(t) => AddIsText(t);
    case Remove(t) => RemoveIsText(t);
    case Context(t) => FirstCharDecides(EditLine(e), ' ');
    case NoNewline => FirstCharDecides(EditLine(e), '\\');
  }

  /** One body line, read: a file header line, or a line of the hunk. */
  lemma ReadEdit(r: Reader, e: Edit)
    requires r.file.Some? && r.hunk.Some? && OneLine(e)
    ensures ReadLine(r, EditLine(e))
         == r.(file := Some(TurnedBy(r.file.value, e)), lines := r.lines + EditLines(Remaining([e])))
  {
    hide HeaderPath, HunkHeader, StartsWith;
    RemainingOne(e);
    assert r.lines + [] == r.lines;
    if !ReadsAsHeader(e) {
      EditIsText(e);
    } else if e.Add? {
      AddIsHeader(e.text);
    } else {
      RemoveIsHeader(e.text);
    }
  }

  lemma RemainingOne(e: Edit)
    ensures EditLines(Remaining([e])) == if ReadsAsHeader(e) then [] else [EditLine(e)]
  {
    assert [e][1..] == [];
  }

  lemma AddIsHeader(t: string)
    ensures var line := "+" + t;
      && HeaderPath(line).None? && !StartsWith(line, "new file mode") && !StartsWith(line, "deleted file mode")
      && (StartsWith(line, "+++ b/") <==> StartsWith(t, "++ b/")) && (line == "+++ /dev/null" <==> t == "++ /dev/null")
      && (StartsWith(t, "++ b/") ==> line[6..] == t[5..])
  {
    assert "+" + "++ b/" == "+++ b/" && "+" + "++ /dev/null" == "+++ /dev/null";
    hide HeaderPath;
    FirstCharDecides("+" + t, '+');
    SameTail('+', t, "++ b/");
    SameTail('+', t, "++ /dev/null");
  }

  lemma RemoveIsHeader(t: string)
    requires t == "-- /dev/null"
    ensures var line := "-" + t;
      && HeaderPath(line).None? && !StartsWith(line, "new file mode") && !StartsWith(line, "deleted file mode")
      && !StartsWith(line, "+++ b/") && line != "+++ /dev/null" && line == "--- /dev/null"
  {
    assert "-" + "-- /dev/null" == "--- /dev/null";
    hide HeaderPath, StartsWith;
    FirstCharDecides("-" + t, '-');
  }

  lemma {:induction false} ReadBody(r: Reader, body: seq<Edit>)
    requires r.file.Some? && r.hunk.Some? && forall k :: 0 <= k < |body| ==> OneLine(body[k])
    ensures ReadAll(r, EditLines(body))
         == r.(file := Some(Turned(r.file.value, body)), lines := r.lines + EditLines(Remaining(body)))
    decreases |body|
  {
    hide ReadLine, OneLine, EditLine, TurnedBy, ReadsAsHeader;
    if body == [] {
      assert r.lines + [] == r.lines;
    } else {
      var e, next := body[0], ReadLine(r, EditLine(body[0]));
      ReadEdit(r, e);
      assert EditLines(body)[1..] == EditLines(body[1..]);
      ReadBody(next, body[1..]);
      RemainingNext(body);
      assert r.lines + EditLines(Remaining([e])) + EditLines(Remaining(body[1..])) == r.lines + EditLines(Remaining(body));
    }
  }

  lemma RemainingNext(body: seq<Edit>)
    requires body != []
    ensures EditLines(Remaining(body)) == EditLines(Remaining([body[0]])) + EditLines(Remaining(body[1..]))
  {
    hide ReadsAsHeader, EditLine;
    assert [body[0]][1..] == [];
  }

  lemma HeaderLineReads(h: PatchHunk)
    ensures var line := HeaderLine(h);
      line != "" && HeaderPath(line).None? && !StartsWith(line, "new file mode") && !StartsWith(line, "deleted file mode")
      && !StartsWith(line, "+++ b/") && line != "+++ /dev/null" && line != "--- /dev/null"
  {
    assert HeaderLine(h)[0] == '@';
    FirstCharDecides(HeaderLine(h), '@');
  }

  lemma {:induction false} TurnedKeepsHunks(file: FileDiff, body: seq<Edit>)
    ensures Turned(file, body).hunks == file.hunks
    decreases |body|
  {
    hide StartsWith;
    if body != [] {
      TurnedKeepsHunks(TurnedBy(file, body[0]), body[1..]);
    }
  }

  /** A printed hunk, read and closed, is one more hunk of the current file. */
  lemma ReadHunk(r: Reader, h: PatchHunk)
    requires r.file.Some? && HunkPrints(h)
    ensures var f := Flush(r).file.value;
      ReadAll(r, HunkLines(h)).file.Some?
      && Flush(ReadAll(r, HunkLines(h)))
         == Flush(r).(file := Some(Turned(f, h.body).(hunks := f.hunks + [HunkAsRead(h)])))
  {
    hide HunkHeader, HeaderPath, HeaderLine, Turned, Remaining;
    HeaderLineReads(h);
    HeaderPrinted(h);
    SameHeader(h, Remaining(h.body));
    var started := ReadLine(r, HeaderLine(h));
    ReadInTwo(r, [HeaderLine(h)], EditLines(h.body));
    ReadOne(r, HeaderLine(h));
    ReadBody(started, h.body);
    TurnedKeepsHunks(started.file.value, h.body);
  }

  lemma SameHeader(h: PatchHunk, body: seq<Edit>)
    ensures HeaderLine(h.(body := body)) == HeaderLine(h)
  {
  }

  lemma {:induction false} ReadHunks(r: Reader, hunks: seq<PatchHunk>)
    requires r.file.Some? && forall k :: 0 <= k < |hunks| ==> HunkPrints(hunks[k])
    ensures ReadAll(r, AllHunkLines(hunks)).file.Some?
    ensures Flush(ReadAll(r, AllHunkLines(hunks))) == Flush(r).(file := Some(FileWith(Flush(r).file.value, hunks)))
    decreases |hunks|
  {
    hide HunkLines, HunkAsRead, HunkPrints, Flush, Turned;
    FlushKeepsFile(r);
    if hunks != [] {
      ReadInTwo(r, HunkLines(hunks[0]), AllHunkLines(hunks[1..]));
      ReadHunk(r, hunks[0]);
      ReadHunks(ReadAll(r, HunkLines(hunks[0])), hunks[1..]);
    }
  }

  lemma FlushKeepsFile(r: Reader)
    requires r.file.Some?
    ensures Flush(r).file.Some?
  {
  }

  lemma ReadMode(r: Reader, f: PatchFile)
    requires r.file.Some? && r.file.value.status == Modified && r.hunk.None?
    ensures ReadAll(r, ModeLines(f.status)) == r.(file := Some(r.file.value.(status := f.status)))
  {
    hide HeaderPath, StartsWith;
    match f.status
    case Modified =>
    case Added =>
      NewFileLine();
      ReadOne(r, "new file mode 100644");
    case Deleted =>
      DeletedFileLine();
      ReadOne(r, "deleted file mode 100644");
  }

  lemma NewFileLine()
    ensures StartsWith("new file mode 100644", "new file mode") && HeaderPath("new file mode 100644").None?
  {
    assert "new file mode 100644" == "new file mode" + " 100644";
    hide HeaderPath;
    FirstCharDecides("new file mode 100644", 'n');
  }

  lemma DeletedFileLine()
    ensures var line := "deleted file mode 100644";
      StartsWith(line, "deleted file mode") && !StartsWith(line, "new file mode") && HeaderPath(line).None?
  {
    assert "deleted file mode 100644" == "deleted file mode" + " 100644";
    hide HeaderPath;
    DeletedIsNoPath();
    FirstCharDecides("deleted file mode 100644", 'd');
  }

  lemma DeletedIsNoPath()
    ensures HeaderPath("deleted file mode 100644").None?
  {
    var line, git := "deleted file mode 100644", "diff --git a/";
    assert line[1] == 'e' && git[1] == 'i';
    assert line[0..13][1] == line[1];
  }

  /** The two side lines set the path, and agree with the mode line on the status. */
  lemma ReadSides(r: Reader, f: PatchFile)
    requires r.file.Some? && r.file.value.status == f.status && r.hunk.None?
    requires f.hunks == [] || f.status.Deleted? ==> r.file.value.path == f.path
    ensures ReadAll(r, SideLines(f)) == r.(file := Some(r.file.value.(path := f.path)))
  {
    if f.hunks != [] {
      var lines := SideLines(f);
      assert lines == [lines[0]] + [lines[1]];
      ReadInTwo(r, [lines[0]], [lines[1]]);
      OldSideReads(r, f);
      ReadOne(r, lines[0]);
      ReadOne(r, lines[1]);
      NewSideReads(r, f);
    }
  }

  lemma OldSideReads(r: Reader, f: PatchFile)
    requires r.file.Some? && r.file.value.status == f.status && r.hunk.None? && f.hunks != []
    ensures ReadLine(r, SideLines(f)[0]) == r
  {
    var line := SideLines(f)[0];
    FirstCharDecides(line, '-');
    if !f.status.Added? {
      assert line[4] == 'a' && "--- /dev/null"[4] == '/';
    }
  }

  lemma NewSideReads(r: Reader, f: PatchFile)
    requires r.file.Some? && r.file.value.status == f.status && r.hunk.None? && f.hunks != []
    requires f.status.Deleted? ==> r.file.value.path == f.path
    ensures ReadLine(r, SideLines(f)[1]) == r.(file := Some(r.file.value.(path := f.path)))
  {
    var line := SideLines(f)[1];
    FirstCharDecides(line, '+');
    if f.status.Deleted? {
      assert line[4] == '/' && "+++ b/"[4] == 'b';
    } else {
      assert line[6..] == f.path && line[..6] == "+++ b/";
    }
  }

  /** A printed file, read and closed, is one more file. */
  lemma ReadFile(r: Reader, f: PatchFile)
    requires FilePrints(f)
    ensures Finish(ReadAll(r, FileLines(f))) == Finish(r) + [FileAsRead(f)]
  {
    hide HeaderPath, GitLine, ModeLines, SideLines, AllHunkLines, ReadLine, FileWith;
    GitLineReads(f.from, f.path);
    var a := [GitLine(f.from, f.path)];
    var path := HeaderPath(GitLine(f.from, f.path)).value;
    ReadOne(r, GitLine(f.from, f.path));
    GitLineStarts(r, f.from, f.path);
    var r1 := Reader(Finish(r), Some(FileDiff(path, Modified, [])), None, []);
    ReadMode(r1, f);
    var r2 := r1.(file := Some(FileDiff(path, f.status, [])));
    ReadNoise(r2, f.extra);
    ReadSides(r2, f);
    var r3 := r2.(file := Some(FileDiff(f.path, f.status, [])));
    ReadHunks(r3, f.hunks);
    ReadInTwo(r, a + ModeLines(f.status) + f.extra + SideLines(f), AllHunkLines(f.hunks));
    ReadInTwo(r, a + ModeLines(f.status) + f.extra, SideLines(f));
    ReadInTwo(r, a + ModeLines(f.status), f.extra);
    ReadInTwo(r, a, ModeLines(f.status));
  }

  lemma GitLineStarts(r: Reader, from: string, path: string)
    requires HeaderPath(GitLine(from, path)).Some?
    ensures ReadLine(r, GitLine(from, path))
         == Reader(Finish(r), Some(FileDiff(HeaderPath(GitLine(from, path)).value, Modified, [])), None, [])
  {
  }

  lemma {:induction false} ReadPatch(r: Reader, patch: seq<PatchFile>)
    requires Printable(patch)
    ensures Finish(ReadAll(r, PatchLines(patch))) == Finish(r) + AllAsRead(patch)
    decreases |patch|
  {
    hide FileLines, FileAsRead, FilePrints, Finish;
    if patch == [] {
      assert Finish(r) + [] == Finish(r);
    } else {
      ReadInTwo(r, FileLines(patch[0]), PatchLines(patch[1..]));
      ReadFile(r, patch[0]);
      ReadPatch(ReadAll(r, FileLines(patch[0])), patch[1..]);
      assert Finish(r) + [FileAsRead(patch[0])] + AllAsRead(patch[1..]) == Finish(r) + AllAsRead(patch);
    }
  }

  // no line break inside a printed line

  lemma NumbersOnOneLine(h: PatchHunk)
    requires '\n' !in h.heading
    ensures '\n' !in HeaderLine(h)
  {
    assert forall n: nat :: '\n' !in Decimal(n) by {
      assert !IsDigit('\n');
    }
  }

  lemma {:induction false} HunksOnOneLineEach(hunks: seq<PatchHunk>)
    requires forall k :: 0 <= k < |hunks| ==> HunkPrints(hunks[k])
    ensures forall k :: 0 <= k < |AllHunkLines(hunks)| ==> '\n' !in AllHunkLines(hunks)[k]
  {
    if hunks != [] {
      HunksOnOneLineEach(hunks[1..]);
      NumbersOnOneLine(hunks[0]);
      forall k | 0 <= k < |hunks[0].body|
        ensures '\n' !in EditLines(hunks[0].body)[k]
      {
        EditOnOneLine(hunks[0].body[k]);
      }
    }
  }

  lemma EditOnOneLine(e: Edit)
    requires OneLine(e)
    ensures '\n' !in EditLine(e) && EditLine(e) != ""
  {
  }

  lemma FileOnOneLineEach(f: PatchFile)
    requires FilePrints(f)
    ensures forall k :: 0 <= k < |FileLines(f)| ==> '\n' !in FileLines(f)[k]
  {
    hide AllHunkLines;
    HunksOnOneLineEach(f.hunks);
    assert forall line :: line in [GitLine(f.from, f.path)] + ModeLines(f.status) + f.extra + SideLines(f) ==> '\n' !in line;
  }

  lemma {:induction false} PatchOnOneLineEach(patch: seq<PatchFile>)
    requires Printable(patch)
    ensures forall k :: 0 <= k < |PatchLines(patch)| ==> '\n' !in PatchLines(patch)[k]
  {
    hide AllHunkLines;
    if patch != [] {
      PatchOnOneLineEach(patch[1..]);
      FileOnOneLineEach(patch[0]);
    }
  }

  /** What parsing a printed patch gives, whatever its bodies hold. */
  lemma PrintedReads(patch: seq<PatchFile>)
    requires Printable(patch)
    ensures Parse(Text(patch)) == AllAsRead(patch)
  {
    PatchOnOneLineEach(patch);
    SplitLinesUnlines(PatchLines(patch));
    ReadPatch(Empty, patch);
    assert [] + AllAsRead(patch) == AllAsRead(patch);
  }

  // a line passed over is missing from its hunk

  /** The length of the lines, each with one character more. */
  function Bulk(lines: seq<string>): nat {
    if lines == [] then 0 else |lines[0]| + 1 + Bulk(lines[1..])
  }

  lemma {:induction false} JoinBulk(lines: seq<string>)
    requires lines != []
    ensures |Join(lines, '\n')| + 1 == Bulk(lines)
  {
    if |lines| > 1 {
      JoinBulk(lines[1..]);
    } else {
      assert lines[1..] == [];
    }
  }

  predicate NoHeaders(body: seq<Edit>) {
    forall k :: 0 <= k < |body| ==> !ReadsAsHeader(body[k])
  }

  lemma NoHeadersNext(body: seq<Edit>)
    requires body != []
    ensures NoHeaders(body) <==> !ReadsAsHeader(body[0]) && NoHeaders(body[1..])
  {
    assert forall k :: 1 <= k < |body| ==> body[k] == body[1..][k - 1];
    assert forall k :: 0 <= k < |body| - 1 ==> body[1..][k] == body[k + 1];
  }

  lemma {:induction false} RemainingBulk(body: seq<Edit>)
    ensures Bulk(EditLines(Remaining(body))) <= Bulk(EditLines(body))
    ensures Bulk(EditLines(Remaining(body))) == Bulk(EditLines(body)) <==> NoHeaders(body)
    ensures NoHeaders(body) ==> Remaining(body) == body
  {
    hide ReadsAsHeader, EditLine;
    if body != [] {
      var e, rest := body[0], body[1..];
      RemainingBulk(rest);
      NoHeadersNext(body);
      RemainingNext(body);
      RemainingOne(e);
      assert EditLines(body)[1..] == EditLines(rest);
      assert ([EditLine(e)] + EditLines(Remaining(rest)))[1..] == EditLines(Remaining(rest));
      assert [] + EditLines(Remaining(rest)) == EditLines(Remaining(rest));
      assert [e] + rest == body;
    }
  }

  lemma HunkAsReadIff(h: PatchHunk)
    ensures HunkAsRead(h) == HunkMeaning(h) <==> NoHeaders(h.body)
  {
    hide HeaderLine, EditLines, Remaining, NoHeaders;
    var left := h.(body := Remaining(h.body));
    SameHeader(h, Remaining(h.body));
    RemainingBulk(h.body);
    JoinBulk(HunkLines(h));
    JoinBulk(HunkLines(left));
    assert HunkLines(h)[1..] == EditLines(h.body) && HunkLines(left)[1..] == EditLines(left.body);
  }

  lemma {:induction false} TurnedByNone(file: FileDiff, body: seq<Edit>)
    requires NoHeaders(body)
    ensures Turned(file, body) == file
    decreases |body|
  {
    hide StartsWith;
    if body != [] {
      NoHeadersNext(body);
      TurnedByNone(file, body[1..]);
    }
  }

  lemma {:induction false} FileWithIff(file: FileDiff, hunks: seq<PatchHunk>)
    ensures var whole := file.(hunks := file.hunks + HunkMeanings(hunks));
      && |FileWith(file, hunks).hunks| == |file.hunks| + |hunks|
      && FileWith(file, hunks).hunks[..|file.hunks|] == file.hunks
      && (FileWith(file, hunks) == whole <==> forall k :: 0 <= k < |hunks| ==> NoHeaders(hunks[k].body))
    decreases |hunks|
  {
    hide HunkAsRead, HunkMeaning, Turned, NoHeaders;
    if hunks == [] {
      assert file.hunks + [] == file.hunks;
    } else {
      var h, rest, read := hunks[0], hunks[1..], HunkAsRead(hunks[0]);
      var next := Turned(file, h.body).(hunks := file.hunks + [read]);
      FileWithIff(next, rest);
      HunkAsReadIff(h);
      HeadersAhead(hunks);
      var whole := file.(hunks := file.hunks + HunkMeanings(hunks));
      assert file.hunks + [HunkMeaning(h)] + HunkMeanings(rest) == whole.hunks;
      assert FileWith(next, rest).hunks[|file.hunks|] == read;
      if NoHeaders(h.body) {
        TurnedByNone(file, h.body);
      }
    }
  }

  lemma HeadersAhead(hunks: seq<PatchHunk>)
    requires hunks != []
    ensures (forall k :: 0 <= k < |hunks| ==> NoHeaders(hunks[k].body))
        <==> NoHeaders(hunks[0].body) && forall k :: 0 <= k < |hunks| - 1 ==> NoHeaders(hunks[1..][k].body)
  {
    hide NoHeaders;
    assert forall k :: 1 <= k < |hunks| ==> hunks[k] == hunks[1..][k - 1];
    assert forall k :: 0 <= k < |hunks| - 1 ==> hunks[1..][k] == hunks[k + 1];
  }

  lemma FileAsReadIff(f: PatchFile)
    requires FilePrints(f)
    ensures FileAsRead(f) == FileMeaning(f) <==> FileFits(f)
  {
    hide FilePrints, FileWith, ReadsAsHeader, Noise, HunkMeanings;
    assert [] + HunkMeanings(f.hunks) == HunkMeanings(f.hunks);
    FileWithIff(FileDiff(f.path, f.status, []), f.hunks);
    PrintsAndFits(f);
  }

  lemma PrintsAndFits(f: PatchFile)
    requires FilePrints(f)
    ensures FileFits(f) <==> forall k :: 0 <= k < |f.hunks| ==> NoHeaders(f.hunks[k].body)
  {
    hide ReadsAsHeader, Noise, OneLine;
    if forall k :: 0 <= k < |f.hunks| ==> NoHeaders(f.hunks[k].body) {
      forall k | 0 <= k < |f.hunks|
        ensures HunkFits(f.hunks[k])
      {
        assert HunkPrints(f.hunks[k]) && NoHeaders(f.hunks[k].body);
      }
    }
    if FileFits(f) {
      forall k | 0 <= k < |f.hunks|
        ensures NoHeaders(f.hunks[k].body)
      {
        assert HunkFits(f.hunks[k]);
      }
    }
  }

  lemma FitsPrints(patch: seq<PatchFile>)
    requires WellFormed(patch)
    ensures Printable(patch)
  {
    hide FilePrints;
    assert forall k :: 0 <= k < |patch| && FileFits(patch[k]) ==> FilePrints(patch[k]);
  }

  /** Parsing a printed patch gives back its files, paths, statuses, ranges and bodies, in order, if and only if no line of
      a body reads as a file header line. */
  lemma ParsePrinted(patch: seq<PatchFile>)
    requires Printable(patch)
    ensures Parse(Text(patch)) == Meanings(patch) <==> WellFormed(patch)
  {
    hide FilePrints, FileFits, FileAsRead, FileMeaning, Parse, Text;
    PrintedReads(patch);
    forall k | 0 <= k < |patch|
      ensures AllAsRead(patch)[k] == Meanings(patch)[k] <==> FileFits(patch[k])
    {
      FileAsReadIff(patch[k]);
    }
  }
}
