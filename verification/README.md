# Smith, verified

Smith is a code-review server. A change arrives as a unified diff, deterministic rules and analyzers find problems in
it, an agent adds its own, developers answer them, and a policy rules on the result. This project models the parts of
it that are hard to get right and proves what they promise.

Code that works by changing things step by step is modelled as it is written: loops over buffers, stacks and tables,
classes whose methods update their fields. Each such method is proved against a function, and what the code promises
is proved about that function. `dafny verify dfyconfig.toml` checks everything.

## What is modelled, file by file

**The Java scanner** (`rules.py`). `JavaBlanking` is the lexer that blanks comments and literals; its partner is a
token printer, and a reading of any text as tokens makes the agreement hold for every text. `JavaLoops` is the scanner
with its three stacks, with the invariant every run on any text keeps. `JavaTrees` gives trees of statements: their
text, which characters of it stand in a loop body by the rules of the language, lambdas and classes in loop headers
included, and what a reader with the scanner's counters takes for that; `JavaLegible` gives trees that read as what
they are wherever they are printed. `JavaKeywords` says character by character what the scanner takes for a keyword.
`JavaScan` proves that scanning the text of any tree, from any state, is reading the tree. `JavaSemis` counts the `;`
that decide what the reader holds, `JavaBodies` says exactly when the reader is right, for a whole file and for each
construct, and `JavaMisreads` holds a short program for every way it is wrong and for the ordinary `forEach`.
`JavaLoopRule` puts them together: the methods as written, and the rule that reports a call in a loop.

**The diff reader** (`diff.py`, `corpus_findings.py`). `UnifiedDiff` is the line state machine and a printer for the
format POSIX.1-2017 gives under "Diff -u or -U Output Format", with parse-after-print. `DiffLines` is the line counter
against true line numbers. `PatchApply` applies patches to old files and proves that the map of added lines is exactly
the set of lines of the new file that were not carried over. `WholeFilePatches` reads back what the repository's own
printer prints, whatever the files hold.

**The finding algebra** (`dedup.py`, `suppression.py`, `findings.py`, `verdict.py`). `Findings`, `Dedup`,
`Suppression`, on `Sorting`, which holds the stable sort and the filters.

**The review protocol** (`service.py`, `adapters/postgres.py`). `ReviewTables` has the rows and the store classes,
`ReviewProtocol` what each call computes, `ReviewService` the calls as written, over the stores. `ReviewReports` says
finding by finding what becomes of what the tools and the agent hand in, `ReviewAnswers` that answers are recorded as
given, heard and checked, `ReviewRefusals` who is refused and why. `ReviewVersions` proves the two wire versions equal,
`ReviewVerdicts` that a recorded verdict is the verdict of what is stored, `ReviewAccounts` that the numbers of the
trail add up and `ReviewTrail` what every call writes there, `DispositionRows` and `ReviewRuns` what every run keeps.
`ReviewLocking` takes submits and responds apart into statements and interleaves them, with a lock on each review's row
and with the waiting of one write for another of the same row, and proves that on one review every interleaving is a
serial run. `ReviewSlices` lets calls on any reviews go on at once and proves the same of what belongs to each review.
`ReviewRace` shows what happens without the lock.

**Two smaller machines.** `LoginThrottle` is the fixed-window throttle, its driver and its bound. `ImpexCells` and
`ImpexStructure` are the ImpEx reader and the structure check; `ImpexFiles` prints whole files, macros and all, and
reads them back.

`Strings` holds Python's string operations.

## Where the code falls short of what it means to do

Each of these is stated in the model as the code behaves, with the exact condition under which it does as meant.

- Between a loop keyword and its `(` the scanner does not count line breaks (`rules.py:794-797`), nor between
  `forEach` and its `(` (`rules.py:802-807`), so from there on every line number is too low. The number is right if
  and only if the two stand on one line (`JavaScan.HeadLineRightIff`, `JavaScan.ForEachLineRightIff`).
- In the header of a loop the scanner looks at nothing but parentheses (`rules.py:766-781`), so it misses the loops
  that stand in a lambda or a class there, with braces, without, or `forEach`. Of a header it is right about every
  character if and only if the loop stands in another one or no character of the header stands in a loop body
  (`JavaBodies.HeaderRightIff`). The lines are right if and only if each line that has such a character is found for
  some other one (`JavaBodies.RightFile`, `JavaMisreads.HeaderMisread`).
- One `;` closes one loop without braces, whatever the statement that is its body (`rules.py:777-793`). What decides
  is how many `;` that statement has left over: at its own brace level, in no header, and taken by no loop without
  braces inside it. Where the loops inside the statement are closed by theirs, the scanner's stack is right behind the
  loop if and only if there is one at least, and it is right about every character, too, for a loop that stands in no
  other, if and only if there is exactly one, the statement ends on it and no loop body stands in the header
  (`JavaBodies.BriefRightIff`). An expression statement meets this (`JavaSemis.SimpleSemis`). A loop with braces, and
  an `if`, `switch`, `synchronized` or `try` with braces everywhere, has none left over (`JavaSemis.BracedSemis`), so
  what follows the loop counts as its body, up to the next `;` of its brace level (`JavaMisreads.IfBlockMisread`);
  what follows a first `;`, such as an `else`, is taken for code behind the loop (`JavaMisreads.IfElseMisread`).
  Behind `n` chained headers over a statement with `k` left over `n - k` loops stay open (`JavaBodies.NestLeaves`).
- The `while (…)` that ends a `do` is taken for the header of a loop over the empty statement (`rules.py:766-793`).
  The stacks come back, but the line of its `;` is found besides the lines of the body. The lines are right if and
  only if the `do` stands in a loop, or that line has a character of a loop body and no line of one in its header goes
  unfound (`JavaBodies.DoRightIff`); a line break behind the `}` is enough to miss it (`JavaMisreads.DoTailMisread`).
- A `do` without braces is no loop to the scanner (`rules.py:717`): its body is right if and only if the `do` stands
  in another loop (`JavaBodies.BareDoRightIff`, `JavaMisreads.DoBareMisread`).
- Together: in a file in which, within each outermost loop, every loop without braces is closed by its body, the
  scanner ends with empty stacks and is right about every character, ends of `do` and headers aside, if and only if
  outside every loop, too, each loop without braces is closed by the last character of its body and each `do` has
  braces (`JavaBodies.FileRightIff`).
- A backslash before a line break keeps the lexer inside the literal (`rules.py:699-703`), and a second blanking then
  reads the closing quote as an opening one. Blanking any text twice is blanking it once if and only if behind every
  quote so misread the line holds nothing but spaces, comments and literals of the same quote
  (`JavaBlanking.IdempotentIff`), and so on every text whose literals hold no escaped line break
  (`JavaBlanking.BlankIsIdempotent`).
- A `\ No newline` marker is counted as a line of both sides, and a body line that starts with a doubled sign is not
  counted (`diff.py:85-101`). The reported numbers are the true ones if and only if neither stands where it matters
  (`DiffLines.NumbersRightIffClean`, and with the context `DiffLines.AnyRightIff`).
- The reader looks for file header lines inside hunks, too (`diff.py:48-56`): an added line that begins with `++ b/`
  or is `++ /dev/null`, and a removed line `-- /dev/null`, are no lines of the hunk to it and change the path or the
  status of the file. A printed patch reads back as what it means if and only if no line of a body is one of these
  (`UnifiedDiff.PrintedReads`, `UnifiedDiff.ParsePrinted`).
- The whole-file printer escapes nothing (`corpus_findings.py:62-74`). Of each file the lines that begin with `++` are
  not counted, and one that begins with `++ b/` renames the file under way (`diff.py:48-50`), so the map of added
  lines is the right one if and only if no line of any file begins with two plus signs
  (`WholeFilePatches.WholeFilesRead`, `WholeFilePatches.WholeFilesAddAllIff`).
- Confirming a `fixed` claim updates every standing row of its fingerprint (`postgres.py:380-392`), so it leaves other
  answers alone if and only if none stands beside a claim. Only the one-standing-answer invariant protects a dismissal
  (`DispositionRows.OnlyClaimsChangeIff`, `DispositionRows.UnprotectedDismissal`, `ReviewRuns.RunKeeps`).
- The throttle's window is fixed, so fifteen minutes may hold more than ten failures: at most nineteen, which happens
  (`LoginThrottle.NineteenHappen`).

## Model

| member | source | states |
|---|---|---|
| JavaBlanking.BlankJavaNoise | src/smith/reviewer/domain/rules.py:657-713 | The lexer over its buffer: for every token list that prints to the source, the result blanks exactly the comments and literal contents; length, line breaks and everything else stay. |
| JavaBlanking.BlankKeepsShape | src/smith/reviewer/domain/rules.py:657-713 | From every mode and on every text the blanked text has the same length, and at each offset either the source's character or a space where the source has no line break. |
| JavaBlanking.BlankAgreesWithTokens | src/smith/reviewer/domain/rules.py:657-713 | Blanking the printed form of any sequence of code, comment and literal tokens masks exactly comment text and literal contents, keeping quotes. |
| JavaBlanking.LexPrints | src/smith/reviewer/domain/rules.py:657-713 | Every text is the printed form of some well-formed token list, so the agreement with tokens leaves no text out. |
| JavaBlanking.BlankIsMaskOfLex | src/smith/reviewer/domain/rules.py:657-713 | Blanking any text at all is masking the comments and literals of its tokens. |
| JavaBlanking.BlankIsIdempotent | src/smith/reviewer/domain/rules.py:657-713 | Blanking twice is blanking once on every text whose literals hold no escaped line break. |
| JavaBlanking.IdempotentIff | src/smith/reviewer/domain/rules.py:699-711 | On every text, blanking twice is blanking once if and only if the tokens are steady: from the closing quote of a literal with an escaped line break to the end of the line there is nothing but spaces, comments and literals of the same quote. |
| JavaBlanking.IdempotentIffOneLine | src/smith/reviewer/domain/rules.py:699-703 | So for a closed literal followed by an ordinary character: if and only if the literal holds no escaped line break. |
| JavaLoops.MatchingParen | src/smith/reviewer/domain/rules.py:723-732 | The first offset at which the brackets opened from `opening` on are balanced again, or the end of the text. |
| JavaLoops.PopLeavesLive | src/smith/reviewer/domain/rules.py:756-758 | Because the ends of `forEach` ranges are nested, popping only the top leaves exactly the ranges that still contain the index. |
| JavaLoops.InvStep | src/smith/reviewer/domain/rules.py:754-808 | On arbitrary text every step keeps the depth equal to open loop braces plus open braceless bodies plus open ranges, and the range ends nested as matching parentheses. |
| JavaLoops.InvRun | src/smith/reviewer/domain/rules.py:735-809 | So does every run, from any state that has it. |
| JavaLoops.InvAlways | src/smith/reviewer/domain/rules.py:745-809 | So it holds however far the scanner has come on any text, and the depth is never negative, however broken the text. |
| JavaKeywords.LoopsRecognised | src/smith/reviewer/domain/rules.py:716-800 | On any text, outside a loop header, a step takes `for` and `while` before a `(`, and `do` before a `{`, for a loop if and only if the character in front is none of an identifier, no `$` and no dot; nothing else is taken for one. |
| JavaKeywords.ForEachRecognised | src/smith/reviewer/domain/rules.py:720-807 | And it opens a range at `forEach` before a `(` if and only if the character in front is none of an identifier and no `$`, a dot being allowed; the range reaches to the parenthesis paired with that one. |
| JavaTrees.MarksShow | src/smith/reviewer/domain/rules.py:735-742 | The loop bodies of a tree by the rules of the language, loop headers and what their lambdas hold included, character by character with whether it stands in one, spell the printed text. |
| JavaTrees.ReadShow | src/smith/reviewer/domain/rules.py:735-809 | So do the characters as the reader with the scanner's counters takes them. |
| JavaScan.ScanTree | src/smith/reviewer/domain/rules.py:735-809 | Scanning the printed text of any tree, from any state outside a header, is reading the tree: the block and range stacks and the flags come back, the stack of loops without braces and the depth are as the reader leaves them, the lines added are those it takes for loop bodies. Nothing is asked of the bodies. |
| JavaScan.ScanFile | src/smith/reviewer/domain/rules.py:735-809 | For a whole file the lines found are the lines of the characters the reader takes for loop bodies. |
| JavaScan.HeadLineRightIff | src/smith/reviewer/domain/rules.py:794-797 | Behind a loop keyword and its parenthesis the scanner's line number is right if and only if no line break stands between the two. |
| JavaScan.ForEachLineRightIff | src/smith/reviewer/domain/rules.py:802-807 | So behind `forEach` and its parenthesis. |
| JavaSemis.ReadHeld | src/smith/reviewer/domain/rules.py:777-793 | Each `;` a tree has left over closes one of the loops without braces held open around it, none closes any other, and what was open before stays. |
| JavaSemis.AllInIff | src/smith/reviewer/domain/rules.py:777-793 | With n such loops open around it all of a tree is taken for loop body if and only if the tree stands in another loop or they last to its end: more of them than `;` left over, or as many and the last character is one. |
| JavaBodies.HeaderRightIff | src/smith/reviewer/domain/rules.py:766-781 | Wherever a loop stands the reader is right about every character of its keyword and header if and only if the loop stands in another one or no character of the header stands in a loop body. |
| JavaBodies.FineIff | src/smith/reviewer/domain/rules.py:735-809 | Outside every loop, with each loop without braces closed within the outermost loop around it: the reader holds in the end what it held before and takes every character that is no white space for what it is, ends of `do` and headers aside, if and only if each loop without braces is closed by the last character of its body and each `do` has braces. |
| JavaBodies.FileRightIff | src/smith/reviewer/domain/rules.py:735-809 | So for the scanner on whole files: empty stacks and every character right, with the same exceptions, if and only if the same holds. |
| JavaBodies.ReadRight | src/smith/reviewer/domain/rules.py:735-809 | Where every loop without braces is closed by its body, and outside a loop by its very last character, the reader, in a loop or not, holds in the end what it held before and takes every character that is no white space for what it is, but for the ends of `do` and what the headers of outermost loops hold. |
| JavaBodies.RightFile | src/smith/reviewer/domain/rules.py:735-742 | On such a file the scanner ends with empty stacks, and what it finds, with the loop bodies in the headers of outermost loops, are the lines of all loop bodies with those on which a `do` ends: exactly the loop bodies if and only if every `do` ends on a line that has a character of one and every line of one in such a header is found anyway. |
| JavaBodies.BriefRightIff | src/smith/reviewer/domain/rules.py:766-793 | A loop without braces over any statement: the stack is restored if and only if the statement has a `;` left over, and the reader is also right about every character if and only if, unless in another loop, it has exactly one and ends on it and no character of the header stands in a loop body. |
| JavaBodies.DoRightIff | src/smith/reviewer/domain/rules.py:766-801 | A `do` with braces: the stacks are restored, the lines found are those of its loop bodies, without the ones only its header holds, and the line of its last `;`; and they are right if and only if it stands in a loop, or that line has a character of a loop body and every line of one in the header is found anyway. |
| JavaBodies.BareDoRightIff | src/smith/reviewer/domain/rules.py:717 | A `do` without braces: the stacks are restored, and the body is right if and only if the `do` stands in a loop. |
| JavaBodies.NestLeaves | src/smith/reviewer/domain/rules.py:791-793 | Behind n headers over a statement with k `;` left over n - k loops stay open, and none if and only if k is n at least. |
| JavaSemis.SimpleSemis | src/smith/reviewer/domain/rules.py:777-779 | An expression statement, whatever lambdas and class bodies it holds, has exactly one `;` left over and ends on it. |
| JavaSemis.BracedSemis | src/smith/reviewer/domain/rules.py:777-793 | A loop with braces and a compound statement with braces everywhere have none left over. |
| JavaLegible.ReadsAt | src/smith/reviewer/domain/rules.py:735-809 | A tree with no keyword but where it has one, `forEach` behind whatever receiver included, and no white space but in plain text and behind a `do`, reads as what it is wherever its text stands. |
| JavaMisreads.HeaderMisread | src/smith/reviewer/domain/rules.py:735-742 | A `while` whose header holds a lambda with a `for`: the line of the body of the `for` is not found. |
| JavaMisreads.DoTailMisread | src/smith/reviewer/domain/rules.py:735-742 | A `do` with its `while` on a line of its own: the line is found though no loop body stands on it. |
| JavaMisreads.DoBareMisread | src/smith/reviewer/domain/rules.py:735-742 | A `do` without braces: the line of its body is not found, that of its `while` is. |
| JavaMisreads.IfBlockMisread | src/smith/reviewer/domain/rules.py:735-742 | A loop without braces over an `if` with braces: the line of the next statement is found. |
| JavaMisreads.IfElseMisread | src/smith/reviewer/domain/rules.py:735-742 | A loop without braces over an `if` with an `else`: the line of the `else` is not found. |
| JavaMisreads.ForEachIsFound | src/smith/reviewer/domain/rules.py:735-742 | `m.forEach(o->{…})` on three lines: the three lines of its range are found. |
| JavaLoopRule.FirstBeyondSpaces | src/smith/reviewer/domain/rules.py:772-774 | The first offset from the given one on that holds no space. |
| JavaLoopRule.LeaveRanges | src/smith/reviewer/domain/rules.py:756-758 | Pops every range end the index has reached, with the depth. |
| JavaLoopRule.LinesInsideALoop | src/smith/reviewer/domain/rules.py:735-809 | The scanner as written, with its stacks, counter and flag: for every tree that prints to the code the lines returned are those the reader takes for loop bodies, and where every loop without braces is closed by its body they are the lines of the loop bodies if and only if every `do` ends on one of them and no header holds one that goes unfound. |
| JavaLoopRule.ReturnsBeforeItsBlockEnds | src/smith/reviewer/domain/rules.py:815-834 | True exactly when a `return` stands at the block's own level behind the start, before the block's closing brace. |
| JavaLoopRule.SplitSameShape | src/smith/reviewer/domain/rules.py:904-918 | Texts of the same shape split into as many lines of the same lengths. |
| JavaLoopRule.LinesLineUp | src/smith/reviewer/domain/rules.py:904-918 | Each line starts at the same offset in the source and in its blanked text, so the running offset points at the line in both. |
| JavaLoopRule.RepeatsHere | src/smith/reviewer/domain/rules.py:914-918 | A call is found on the line and nothing returns before its block ends. |
| JavaLoopRule.CallsOnLine | src/smith/reviewer/domain/rules.py:913-931 | On an added line of a loop body the hits grow by exactly the calls found there behind which nothing returns, in order. |
| JavaLoopRule.CallsInLoop | src/smith/reviewer/domain/rules.py:904-932 | The hits are, in order and once each, exactly the calls found on added lines of loop bodies behind which nothing returns, each with the source's own line. |
| UnifiedDiff.ParseUnifiedDiff | src/smith/reviewer/domain/diff.py:16-77 | The reader with its buffered hunk: for every patch that prints to the text, renames and binary parts included, the files it returns are the patch as the reader takes it, and what the patch means if and only if no line of a body reads as a file header line. |
| UnifiedDiff.HeaderPrinted | src/smith/reviewer/domain/diff.py:13 | A printed hunk header is read back with its ranges, an omitted count meaning one line. |
| UnifiedDiff.GitLineReads | src/smith/reviewer/domain/diff.py:12 | The greedy header pattern reads the new path back from a printed `diff --git` line, whatever the old one. |
| UnifiedDiff.PrintedReads | src/smith/reviewer/domain/diff.py:16-77 | What parsing any printed patch gives: file by file the hunks with their ranges and with the body lines that do not read as file header lines, path and status as the others leave them. |
| UnifiedDiff.ParsePrinted | src/smith/reviewer/domain/diff.py:16-77 | Parsing a printed patch gives back its files, paths, statuses, hunk ranges and bodies, in order, if and only if no line of a body reads as a file header line. |
| DiffLines.IterHunkLines | src/smith/reviewer/domain/diff.py:80-102 | The walker as written: of every printed hunk it yields the numbers and texts the body has on the side asked for, the new one, the old one, or the new one with its context, doubled signs and markers read as the code reads them. |
| DiffLines.WalkOfPrinted | src/smith/reviewer/domain/diff.py:80-102 | What the walker makes of any printed hunk, edit by edit. |
| DiffLines.WalkedIffClean | src/smith/reviewer/domain/diff.py:85-101 | It yields the true numbered lines if and only if the body is clean on that side. |
| DiffLines.NumbersRightIffClean | src/smith/reviewer/domain/diff.py:85-101 | The set of line numbers it yields is the true one if and only if the body is clean: no marker before a later line of the side, no line that starts with a doubled sign. |
| DiffLines.AnyRightIff | src/smith/reviewer/domain/diff.py:80-102 | With the context it yields the true numbered lines if and only if no added line starts with two plus signs and no marker stands in the body. |
| PatchApply.AddedAreFresh | src/smith/reviewer/domain/diff.py:80-110 | For any old file and hunks that fit it, the numbers and texts of the added lines are the lines of the patched file that were not carried over, in order. |
| PatchApply.FreshIs | src/smith/reviewer/domain/diff.py:105-110 | A numbered text is among them exactly when that line of the new file has that text and comes from nowhere. |
| PatchApply.RemovedAreGone | src/smith/reviewer/domain/diff.py:80-102 | The numbers and texts of the removed lines are the lines of the old file that were not carried over. |
| PatchApply.CarriedTextIsOld | src/smith/reviewer/domain/diff.py:80-102 | Every carried-over line of the new file has the text of the old line it came from. |
| PatchApply.LengthDifference | src/smith/reviewer/domain/diff.py:80-102 | The file grows by the additions and shrinks by the removals. |
| PatchApply.WalksAreTrue | src/smith/reviewer/domain/diff.py:105-110 | On clean hunks the walker reports the true numbers and texts of all hunks of a file, on either side. |
| PatchApply.AddedOfFile | src/smith/reviewer/domain/diff.py:105-110 | The numbers reported for one file are exactly its fresh lines. |
| PatchApply.AddedLinesOfText | src/smith/reviewer/domain/diff.py:16-110 | From the text of a patch to its line numbers: the added-line map of the parsed text gives each path exactly the lines of its new file that were not carried over from its old one. |
| PatchApply.AddedLinesByPath | src/smith/reviewer/domain/diff.py:105-110 | On any diff the map holds each path once, with the lines of the last file that has it, and no other path. |
| PatchApply.DiffOfWholeFiles | scripts/corpus_findings.py:62-74 | The repository's printer prints the patch that adds each file in full. |
| PatchApply.WholeFilesAddAll | scripts/corpus_findings.py:62-74 | Parsed back, the added lines of each path are exactly 1 to the number of lines of the file, when no line begins with two plus signs. |
| WholeFilePatches.WholeFilesRead | src/smith/reviewer/domain/diff.py:16-102 | Whatever the files hold, each is read back as one file, under the last path among its header-like lines, with as many lines added as do not begin with two plus signs, numbered from 1. |
| WholeFilePatches.WholeFilesAddAllIff | scripts/corpus_findings.py:62-74 | The added lines of each path are exactly 1 to the number of its lines if and only if no line of any file begins with two plus signs. |
| Findings.ApplyDispositions | src/smith/reviewer/domain/findings.py:53-64 | A finding is active afterwards exactly when it was and no dismissal or acceptance stands for its fingerprint; a finding muted quotes the answer, by whom, when and why, in three hundred characters; order and all else stay. |
| Findings.ApplyTwice | src/smith/reviewer/domain/findings.py:53-64 | Applying the same answers again changes nothing. |
| Findings.VerdictMeans | src/smith/reviewer/domain/verdict.py:10-23 | The verdict blocks exactly when some active finding is as severe as the policy asks, its reason counts those, and it counts the active findings of each severity present and no other. |
| Findings.GateBySeverity | src/smith/reviewer/domain/verdict.py:10-23 | By the severities themselves: on `critical`, or on a word that is no severity, a policy blocks exactly when an active finding is critical, on `warning` also on a warning, on `suggestion` also on a suggestion, on `nitpick` also on a nitpick, and on no other severity ever; and the reason counts those findings. |
| Findings.VerdictPermutation | src/smith/reviewer/domain/verdict.py:10-23 | The verdict does not depend on the order of the findings. |
| Findings.MutingNeverBlocks | src/smith/reviewer/domain/findings.py:53-64 | Muting findings never makes a review block. |
| Findings.CapKeepsTheWorst | src/smith/reviewer/service.py:63-74 | What the cap keeps and drops are together the findings, nothing kept ranks below anything dropped, the cap is exact, and under the limit nothing moves. |
| Findings.CapKeepsOrder | src/smith/reviewer/service.py:71-74 | Findings the cap ranks alike keep the order the rules produced. |
| Findings.CapCuts | src/smith/reviewer/service.py:63-74 | By the severities themselves: what is kept and what is dropped are the findings; under the limit nothing moves; over it what is active comes first and then what is more severe, so nothing is dropped for something less severe, and findings of one severity keep their order. |
| Dedup.Merge | src/smith/reviewer/domain/dedup.py:10-38 | The result holds the deterministic findings and the agent's as decided, each decision right by the fields; what is active comes first, then by severity, then by file in code points, then by line. |
| Dedup.SameKeyIsNear | src/smith/reviewer/domain/dedup.py:41-53 | Two findings of one bucket have the same file, the same rule and lines at most two apart. |
| Dedup.DecisionIsRight | src/smith/reviewer/domain/dedup.py:14-53 | Each agent finding is left alone unless active; muted as restated exactly when an active deterministic finding has its file, its rule and a line at most two away, no line counting as 0; otherwise muted as a duplicate exactly when an earlier, still active agent finding has its file, its rule and its three lines. |
| Dedup.NobodyIsToldTwice | src/smith/reviewer/domain/dedup.py:10-53 | After a merge no active agent finding has the file, the rule and, within two, the line of an active deterministic one, and no two active agent findings have the same file, rule and three lines. |
| Dedup.MutedHasWitness | src/smith/reviewer/domain/dedup.py:17-36 | Every finding a merge mutes has a witness of its file and rule, at most two lines away, that is still active in the result, for a duplicate an earlier agent finding. |
| Dedup.MergedHalves | src/smith/reviewer/domain/dedup.py:10-38 | The deterministic half comes through unchanged, the agent's half is the decided one, each up to order. |
| Dedup.MergeKeepsOrder | src/smith/reviewer/domain/dedup.py:38 | Findings the merge ranks alike stay as they came, the deterministic ones first. |
| Suppression.ScopeToDiff | src/smith/reviewer/domain/diff.py:113-141 | A finding whose file no changed path names, or that points at an added line of the one that does, comes out as it is; every other one muted as outside the change. |
| Suppression.LookupPicks | src/smith/reviewer/domain/diff.py:113-125 | Looking a path up gives the first entry with this very path; when there is none the first whose path is this one, or this one its, from some directory on; and nothing exactly when no entry is either. |
| Suppression.ReadSource | src/smith/reviewer/domain/suppression.py:65-71 | The memo never answers anything but what looking the path up would. |
| Suppression.DropUnactionable | src/smith/reviewer/domain/suppression.py:59-86 | A finding stays active exactly when it was, nobody silenced it and it is no override twin; what is muted says why, the first reason in order; nothing else about it changes. |
| Suppression.ActionableKeeps | src/smith/reviewer/domain/suppression.py:59-150 | What that means line by line: generated files and Jalo managers by their path and the line that tells, acknowledged lines, and for twins the first file in order where an active finding of the same rule is about the declaration of the method the line overrides. |
| Suppression.DropOverrideTwins | src/smith/reviewer/domain/suppression.py:89-122 | The grouping pass computes, for each overriding finding, whether another file declares its method for the same rule. |
| Suppression.TwinHasKeeper | src/smith/reviewer/domain/suppression.py:105-119 | Every twin dropped has a still active finding of the same rule and method in another file. |
| Suppression.NoDecisionIsLost | src/smith/reviewer/domain/suppression.py:89-122 | A rule and method with an active finding before the twins are dropped has one after, and the other way round. |
| Suppression.UntwinnedTwice | src/smith/reviewer/domain/suppression.py:89-122 | Dropping twins again changes nothing. |
| Suppression.ActionableTwice | src/smith/reviewer/domain/suppression.py:59-122 | A second run of the whole pass changes nothing. |
| ReviewTables.ReviewStore.Create | src/smith/reviewer/adapters/postgres.py:136-155 | Appends a planned review and returns its id; nothing else changes. |
| ReviewTables.ReviewStore.AddFindings | src/smith/reviewer/adapters/postgres.py:206-227 | Appends one row for each finding, in order, without the regressed flag, which no column holds. |
| ReviewTables.ReviewStore.ReplaceAgentFindings | src/smith/reviewer/adapters/postgres.py:229-235 | Deletes the agent's rows of the review and appends the new ones. |
| ReviewTables.ReviewStore.ReadFindings | src/smith/reviewer/adapters/postgres.py:237-241 | The findings of one review in row order. |
| ReviewTables.ReviewStore.AddStep | src/smith/reviewer/adapters/postgres.py:243-253 | Appends a step numbered one above the highest of the review. |
| ReviewTables.ReviewStore.CompleteReview | src/smith/reviewer/adapters/postgres.py:255-262 | Marks the review completed with the verdict's flag and reason, and does nothing for a review that is not there. |
| ReviewTables.DispositionStore.Settle | src/smith/reviewer/adapters/postgres.py:372-392 | Confirms or revokes every standing row of the fingerprints and no other. |
| ReviewTables.DispositionStore.Set | src/smith/reviewer/adapters/postgres.py:336-360 | Revokes what stands for the fingerprint and appends the answer. |
| ReviewTables.DispositionStore.ReadActive | src/smith/reviewer/adapters/postgres.py:362-413 | The last standing answer of each fingerprint asked for. |
| ReviewTables.DispositionStore.ReadClaimed | src/smith/reviewer/adapters/postgres.py:369-370 | The fingerprints a `fixed` claim stands for. |
| ReviewTables.StandingRow | src/smith/reviewer/adapters/postgres.py:394-413 | A row that stands for the fingerprint, and none only when none does. |
| ReviewService.Service.Identify | src/smith/reviewer/service.py:77-91 | Each finding gets its redacted line and the fingerprint of that line. |
| ReviewService.Service.Remember | src/smith/reviewer/service.py:361-362 | Mutes what the standing answers mute. |
| ReviewService.Service.ReconcileFixed | src/smith/reviewer/service.py:443-467 | Flags the claims that came back, and confirms and revokes claims only when asked to settle. |
| ReviewService.Service.Examine | src/smith/reviewer/service.py:311-402 | The pipeline over one change, with its refusals in order; answers change only when settling. |
| ReviewService.Service.Plan | src/smith/reviewer/service.py:267-282 | The plan; the tables stay as they were. |
| ReviewService.Service.PlanV1 | src/smith/reviewer/service.py:284-309 | The plan and the review row it opens, or a refusal that leaves nothing. |
| ReviewService.Service.Submit | src/smith/reviewer/service.py:471-507 | The call statement by statement leaves the tables and the reply `ReviewProtocol.Submit` gives, whose promises the lemmas below prove. |
| ReviewService.Service.CreateReview | src/smith/reviewer/service.py:509-566 | Likewise for `create_review`. |
| ReviewService.Service.Respond | src/smith/reviewer/service.py:570-609 | Likewise for `respond`; refused half way it may have written answers, never reviews. |
| ReviewService.Service.Record | src/smith/reviewer/service.py:580-591 | One answer: refused for want of a reason, of a lead or of a finding, in that order, or recorded. |
| ReviewService.Service.RespondInTransaction | src/smith/db.py:38-49 | Inside its transaction a respond is refused as a whole or committed as a whole. |
| ReviewService.RefusalSticks | src/smith/reviewer/service.py:580-591 | One refused answer refuses the whole list, with its own reason. |
| ReviewFacts.FindingsOfAdded | src/smith/reviewer/adapters/postgres.py:206-241 | Adding findings appends them, less what no column holds, to the review's own and changes no other review's. |
| ReviewFacts.FindingsOfReplaced | src/smith/reviewer/adapters/postgres.py:229-241 | Replacing leaves the deterministic findings in order, followed by the new agent findings; every other review's stay. |
| ReviewFacts.MergedForgets | src/smith/reviewer/domain/dedup.py:10-53 | A merge of findings read back from the tables is the merge of the findings stored, less what the tables forget. |
| ReviewFacts.JudgeForgets | src/smith/reviewer/service.py:480-501 | Stored findings judge like the ones they were stored from: same verdict, same step, same agent findings stored. |
| ReviewVersions.ExaminedFindings | src/smith/reviewer/service.py:311-402 | Whatever the tools return, an examination holds no agent finding, and exactly the findings of claims that came back are flagged regressed. |
| ReviewVersions.PlannedHolds | src/smith/reviewer/service.py:298-308 | A review just planned reads back as planned, owned by its author, with the change's added lines and the deterministic findings in order. |
| ReviewVersions.VersionsAgree | src/smith/reviewer/service.py:284-566 | From one state, planning with `/v1` and submitting leaves the very tables one `create_review` leaves (findings in order, answers, trail, verdict), with the same id, verdict and findings shown; and each is refused exactly when the other is, for the same reason. |
| ReviewReports.ExamineReports | src/smith/reviewer/service.py:359-370 | Finding by finding what becomes of what the tools return: of those of enabled rules, in order, each is reported with its redacted line and fingerprint, active exactly when it was, lies in the change, is not silenced, is no twin and no dismissal or acceptance stands for it, with the reason when it is not, and flagged exactly when a claim stands that it is fixed; the cap cuts what is reported by severity; a claim is confirmed exactly when nothing reported has its fingerprint and contradicted exactly when something has. |
| ReviewReports.JudgeReports | src/smith/reviewer/service.py:478-494 | The same of the agent's findings within the policy's number: of enabled rules, in order, each muted outside the change, as told by an active finding of the tools, as told by an earlier one that is still active, or by an answer that stands, and active otherwise. |
| ReviewReports.SubmitReports | src/smith/reviewer/service.py:471-507 | What a submission leaves stored: the tools' findings of the review as they were and behind them what is so reported of the agent's, unflagged and nothing else. |
| ReviewVerdicts.HalvesMakeFinal | src/smith/reviewer/service.py:483-494 | The deterministic half as stored and the agent's half of the answered merge are, answered again, the answered merge up to order. |
| ReviewVerdicts.JudgementStands | src/smith/reviewer/service.py:483-501 | The verdict of a merge is the verdict of what it leaves stored, answered afresh. |
| ReviewVerdicts.SubmitVerdictStands | src/smith/reviewer/service.py:471-507 | When `submit` returns, the verdict returned and the one recorded equal the verdict recomputed from the stored findings under the standing answers, although only the agent's half was stored. |
| ReviewVerdicts.CreateVerdictStands | src/smith/reviewer/service.py:509-566 | The same when `create_review` returns. |
| ReviewVerdicts.RespondVerdictStands | src/smith/reviewer/service.py:593-609 | The same when `respond` returns, which rewrites no finding. |
| ReviewAccounts.SubmissionAddsUp | src/smith/reviewer/service.py:132-148 | Nothing of a submission goes missing: what was sent is what fell to the cap, what was of a disabled rule, what lay outside the change, what was a duplicate or already answered, and what was accepted; the cap and the outside count are exact and no count is negative. |
| ReviewAccounts.PlanAddsUp | src/smith/reviewer/service.py:425-441 | In the trail of a plan every finding of the tools is reported, muted or dropped over the cap, and every standing claim confirmed or regressed. |
| ReviewAnswers.RecordedRows | src/smith/reviewer/service.py:580-591 | The rows an accepted list leaves: one behind the others for each answer, with the disposition itself, the note without the white space around it, the developer and the day, standing unless a later answer is about the same finding; of those before, the project's rows an answer is about are revoked and no other row changes. |
| ReviewAnswers.RecordedStands | src/smith/reviewer/service.py:580-591 | So the last answer a list gives to a finding, pointed at by number or by fingerprint, stands for it as it was given, and every other row of the project for it is revoked. |
| ReviewAnswers.RespondStands | src/smith/reviewer/service.py:570-591 | So `respond` leaves it, for the project of the review. |
| ReviewAnswers.MutingIsHeard | src/smith/reviewer/service.py:570-595 | After a dismissal or acceptance every finding it answers is muted, and the verdict is that of the findings so answered. |
| ReviewAnswers.SettledRows | src/smith/reviewer/service.py:443-463 | Opening a review, in either version, turns the standing answers of the claims nothing contradicts into confirmations, revokes those of the contradicted ones, and leaves every other row as it was. |
| ReviewAnswers.FixedIsChecked | src/smith/reviewer/service.py:443-467 | A claim that a finding is fixed stands as given until the next review of the project checks it: confirmed when nothing reported has its fingerprint, else revoked and everything reported with it flagged as having come back. |
| ReviewRefusals.ChangeRefused | src/smith/reviewer/service.py:321-349 | A plan and a review of a change, in either version, go through or are refused alike: for want of a project, for size, for want of changes, as trivial, in that order. |
| ReviewRefusals.SubmissionRefused | src/smith/reviewer/service.py:632-650 | A submission is refused exactly when there is no such review, it is another project's, or an API key is not its author's. |
| ReviewRefusals.ResponsesRefused | src/smith/reviewer/service.py:570-630 | A list of answers goes through exactly when the review may be acted on and every answer may be given: a dismissal or acceptance with a reason, an acceptance by a lead, for a finding shown; else the first that may not says why. |
| DispositionRows.AnsweredHolds | src/smith/reviewer/adapters/postgres.py:336-360 | A new answer is the only one standing for its fingerprint; other rows stay or are revoked. |
| DispositionRows.ConfirmedHolds | src/smith/reviewer/adapters/postgres.py:372-392 | With one answer standing for each fingerprint, confirming changes claims only and keeps it so. |
| DispositionRows.OnlyClaimsChangeIff | src/smith/reviewer/adapters/postgres.py:372-392 | Confirming claims leaves every other answer alone if and only if none stands beside a claim, which one standing answer for each fingerprint guarantees. |
| DispositionRows.UnprotectedDismissal | src/smith/reviewer/adapters/postgres.py:336-392 | Were a dismissal to stand beside a claim, settling would turn it into a confirmation. |
| ReviewRuns.SettlePartitions | src/smith/reviewer/service.py:443-467 | Settling splits the standing claims into what was not found, confirmed, and what was, revoked; touches no other row and leaves no claim standing. |
| ReviewRuns.StepKeeps | src/smith/reviewer/adapters/postgres.py:243-253 | Adding a step keeps the steps of every review counting 1, 2, 3 and so on. |
| ReviewRuns.ReplaceKeeps | src/smith/reviewer/adapters/postgres.py:229-235 | Replacing the agent's findings keeps the deterministic ones, first and in order, in every review. |
| ReviewRuns.RunKeeps | src/smith/reviewer/service.py:267-609 | Over every run of calls, by anyone under any configurations: at most one answer stands for each project and fingerprint, no row of answers is removed, a revoked row never changes, the only answer rewritten in place is a claim, to confirmed; foreign keys hold, steps count up without gap and are only added to, no review changes hands, and what the server found stays ahead of the agent's findings. |
| ReviewRuns.EmptyIsSound | src/smith/reviewer/adapters/postgres.py:41-112 | Empty tables are such a state. |
| ReviewRuns.ShownInTwo | src/smith/reviewer/service.py:611-619 | The findings shown are the active deterministic ones and then the agent's. |
| ReviewRuns.NumbersAreStable | src/smith/reviewer/service.py:611-630 | Over any run the number of a deterministic finding keeps resolving to the fingerprint it was shown for. |
| ReviewRuns.NumbersBetweenSubmits | src/smith/reviewer/service.py:576-630 | As long as nobody submits to the review, every number resolves as it was shown, whatever has been answered. |
| ReviewRuns.PlanForetells | src/smith/reviewer/service.py:267-282 | A plan writes nothing, and the review a following `create_review` makes of the change stores exactly the plan's findings ahead of the agent's and shows the active ones first; it is refused exactly when the plan was. |
| ReviewRuns.SubmitWrites | src/smith/reviewer/service.py:491-506 | What a submission writes: the agent's rows replaced, the review ruled, the answers untouched. |
| ReviewRuns.SubmitAgain | src/smith/reviewer/service.py:471-507 | A second submission leaves what it would have left without the first, but for the trail. |
| ReviewRuns.LastSubmitWins | src/smith/reviewer/service.py:471-507 | Any number of submissions leaves the findings, verdict and answers of the last alone. |
| ReviewTrail.PlanTrail | src/smith/reviewer/service.py:298-441 | Planning in the first version leaves a new review with one step: the files, the ruleset, as many findings as the plan shows and as many as it says are muted, the claims confirmed and contradicted, what fell to the cap, the platform. |
| ReviewTrail.SubmitTrail | src/smith/reviewer/service.py:132-148 | A submission adds two steps to its review and none to another: what was sent, what of it is stored active, what lay outside the change, what was muted for another reason, what fell to the cap and whether it is not the first; and the verdict returned. |
| ReviewTrail.CreateTrail | src/smith/reviewer/service.py:544-566 | `create_review` leaves a new review with the step of the plan and those two. |
| ReviewTrail.RespondTrail | src/smith/reviewer/service.py:593-609 | A respond adds one: each answer's disposition and stripped note, by whom, and how many findings are muted now. |
| ReviewLocking.SubmitAlone | src/smith/reviewer/service.py:471-507 | The statements of a submit, issued one by one with nobody else about, do what the call does. |
| ReviewLocking.RespondAlone | src/smith/reviewer/service.py:570-609 | So do the statements of a respond, however many answers it carries. |
| ReviewLocking.AloneIsExec | src/smith/db.py:38-49 | Run alone a transaction commits the call's tables, or nothing when the call is refused. |
| ReviewLocking.SerialStep | src/smith/reviewer/service.py:635-648 | Every statement of every transaction on one review keeps the state a serial run with at most one call under way, which has done what it would do alone. |
| ReviewLocking.LockedIsSerial | src/smith/reviewer/service.py:471-648 | Under any interleaving of submits and responds of one review that hold its row from before they read until they end, whenever none is under way the tables, answers and all, are those of the calls run whole in the order they took the lock. |
| ReviewLocking.StoredAreOneSubmission | src/smith/reviewer/adapters/postgres.py:229-235 | After any run the agent findings of a review are those one submission stored, whole. |
| ReviewLocking.LockedKeepsOne | tests/test_limits.py:250-290 | So under the lock the agent findings are one submission's and the steps number 1 to n without gap. |
| ReviewSlices.ExecOnReview | src/smith/reviewer/service.py:471-609 | What a call run whole does to the reviews is what it does to its own review under the answers it leaves. |
| ReviewSlices.FrozenEnds | src/smith/reviewer/service.py:471-609 | The statements of a transaction, on its review alone and under the answers it ruled by, do that to the review. |
| ReviewSlices.IsolatedStep | src/smith/reviewer/service.py:635-648 | Every statement of every transaction on whatever review keeps each review the result of the calls on it that are over, and each call under way having done on its review what it would do alone. |
| ReviewSlices.LockedIsolates | src/smith/reviewer/service.py:471-648 | Under any interleaving of calls on any reviews, each holding its own review's row, whenever none on a review is under way its row, findings and steps are what the calls on it leave one after the other, in the order they took its lock, each under the answers it saw when it ruled. |
| ReviewSlices.LockedKeepsEach | tests/test_limits.py:250-290 | So each review holds the agent findings of one submission, whole, and its steps number 1 to n without gap, whatever goes on elsewhere. |
| ReviewRace.Proceeds | src/smith/reviewer/service.py:635-640 | A transaction under way, given its turns while nothing is committed and nobody holds a row it writes, does what it would do alone. |
| ReviewRace.SecondIsBlocked | src/smith/reviewer/adapters/postgres.py:255-262 | Even without the lock the second submission waits where it updates the review's row, until the first has ended. |
| ReviewRace.UnlockedMixes | tests/test_limits.py:250-290 | Without the lock any two submissions to a review just planned have a schedule, waiting included, that leaves both sets of agent findings and exactly one pair of steps with the same number. |
| LoginThrottle.TwoWindows | src/smith/auth/postgres.py:97-142 | Of windows at least fifteen minutes apart with at most ten failures each, any half-open fifteen minutes hold at most nineteen. |
| LoginThrottle.ExtendedShows | src/smith/auth/postgres.py:116-125 | Recording a failure extends the running window or opens one at least fifteen minutes after the last, and with room the counter never exceeds ten. |
| LoginThrottle.ShowsBounds | src/smith/auth/postgres.py:97-142 | So no counter ever exceeds ten, and no fifteen minutes since the last success hold more than nineteen failures. |
| LoginThrottle.NineteenHappen | src/smith/auth/postgres.py:97-142 | Nineteen failures within fifteen minutes are let through, so the bound is the best one. |
| LoginThrottle.Throttle.LiveRow | src/smith/auth/postgres.py:134-142 | The row of a key whose window is still running when the clock is read. |
| LoginThrottle.Throttle.Blocked | src/smith/auth/postgres.py:109-114 | Blocked exactly when some key has used up the window running for it. |
| LoginThrottle.Throttle.RecordOne | src/smith/auth/postgres.py:116-125 | One more failure in the running window or the first of a new one; every bound keeps holding. |
| LoginThrottle.Throttle.RecordFailure | src/smith/auth/postgres.py:116-125 | One failure for each key, in order. |
| LoginThrottle.Throttle.ClearKeys | src/smith/auth/postgres.py:127-132 | Deletes the rows of the keys and no other. |
| LoginThrottle.Login | src/smith/auth/service.py:71-98 | Refused if and only if the account, however its address is spelt, or the network address when there is one, had ten failures in the fifteen minutes since its window began, and then without trace; otherwise rejected with one failure recorded for each, or accepted with both cleared. Between two successes on a key no fifteen minutes ever hold more than nineteen of its failures. |
| ImpexCells.SplitCells | src/smith/reviewer/domain/rules.py:538-559 | The splitter as written; it gives nothing exactly when a quote is left open. |
| ImpexCells.OpenIsOdd | src/smith/reviewer/domain/rules.py:549-557 | A quote is left open exactly when the number of quotes is odd. |
| ImpexCells.CellsOfJoin | src/smith/reviewer/domain/rules.py:538-559 | Splitting undoes joining: stripped cells with paired quotes and no separator outside them come back unchanged. |
| ImpexCells.ScanJoins | src/smith/reviewer/domain/rules.py:538-559 | Joining undoes splitting: on any text the pieces cut off make up the text, and each has its quotes paired and no separator outside them. |
| ImpexCells.CutIffJoined | src/smith/reviewer/domain/rules.py:538-559 | A readable line is such a join in exactly one way, the one the splitter finds, and an unreadable line is none. |
| ImpexStructure.ParseImpex | src/smith/reviewer/domain/rules.py:562-607 | The reader as written, macros kept as it goes, each row with its line number. |
| ImpexStructure.Filled | scripts/impex_structure.py:20-25 | The one count behind which every cell is empty and before which one is not. |
| ImpexStructure.Problems | scripts/impex_structure.py:39-65 | The single pass reports, in order, exactly the value lines with nothing above them and those whose count and filled count both differ from those of the last header above. |
| ImpexStructure.HeaderReads | src/smith/reviewer/domain/rules.py:496-499 | A printed header line is recognised with its mode, type and columns. |
| ImpexStructure.ValueIsNoHeader | src/smith/reviewer/domain/rules.py:572-606 | A printed value line is neither header nor macro nor comment. |
| ImpexStructure.TableReads | src/smith/reviewer/domain/rules.py:562-607 | A printed macro-free table of headers and value lines reads back as its rows. |
| ImpexStructure.PrintedTable | scripts/impex_structure.py:28-65 | What is reported of a printed table is exactly the value lines that neither have as many cells as their header nor fill as many. |
| ImpexStructure.FullTable | scripts/impex_structure.py:39-65 | A table whose rows all have as many cells as their header has no problem. |
| ImpexFiles.DefinitionReads | src/smith/reviewer/domain/rules.py:500-579 | A printed definition is recognised with its name and its text, whatever white space stands around the `=`. |
| ImpexFiles.HeaderIsRead | src/smith/reviewer/domain/rules.py:497-594 | A printed header is recognised with the mode in any case, any white space, modifiers in brackets or none, and as nothing else. |
| ImpexFiles.MacroIsDefinition | src/smith/reviewer/domain/rules.py:500-579 | Nothing else is recognised as a definition: what is, is printed as one. |
| ImpexFiles.HeadIsHeader | src/smith/reviewer/domain/rules.py:497-594 | Nor as a header. |
| ImpexFiles.FileReads | src/smith/reviewer/domain/rules.py:562-607 | A printed file of remarks, definitions, headers and value lines reads back as its rows, each with its line number and with the macros as the last definitions above it say, whatever white space stands around the lines. |
| ImpexFiles.FileIsPrinted | src/smith/reviewer/domain/rules.py:562-607 | And every file is printed so, a value line being any that is no remark, definition or header. |

## Left out

- Text: `\w` and `\d` are ASCII and matching that ignores case folds ASCII letters only; the only line separator is
  the line feed; ordering of strings is by code point.
- The regular expressions of suppression, triviality of a change, redaction, fingerprints and the size in bytes are
  functions the model is given; so are rules and analyzers, which may return any findings of their own.
- Columns are not truncated: paths, rule ids, reasons and fingerprints are taken to be within their lengths.
- Issue type, suggestion, branch, title, guidelines, prompt text, times of creation and analyzer names: carried along
  by the code and looked at by nothing here.
- Ids of reviews are consecutive; gaps left by transactions rolled back are not modelled. Rows of a table stand in the
  order of their ids.
- An agent finding's line is any number or none; the HTTP layer's limits on lengths are not modelled.
- LoginThrottle.Login: takes lower-casing as a function it is given, and whether the password proves the account as
  given; logins run one after the other, under a clock that never runs backwards.
- Concurrent responds on different reviews of one project: the one-standing-answer invariant is claimed for
  transactions run one after the other, which is what the code relies on.
- ReviewSlices.LockedIsolates: says of the answers only that each call ruled under those it saw; deadlock, lock
  timeouts and transactions that never end are not modelled, and a delete or revoke names the rows it saw by value.
- ImpexStructure.TableReads: is about files without macro definitions; those with them are `ImpexFiles.FileReads`.
- ImpexFiles.FileReads: takes what substitution makes of a text under the definitions as a function the reader is
  given.
- JavaScan.ScanTree: takes trees whose loop keywords and `forEach` have their parenthesis on their line; what the
  scanner does otherwise are `JavaScan.HeadLineRightIff` and `JavaScan.ForEachLineRightIff`.
- JavaBodies.RightFile: is about statements as `JavaTrees.IsJava` has them; a `switch` used as an expression and text
  blocks are left out, and every `forEach (…)` counts as a loop, a method declared by that name included, as in the
  code.
- JavaBodies.FileRightIff: where a loop without braces is left open within an outermost loop, what becomes of it is
  given by `JavaTrees.Read` alone.
- JavaLoopRule.CallsInLoop: is about one file; which files are looked at (by ending, test path, and whether any call
  appears in them at all) and the text of each finding are not modelled.
- UnifiedDiff.ParsePrinted: prints no ` b/` in a path that no `+++` line repeats, and extra lines, such as those of
  renames and binary patches, only if the reader passes over them.
- DispositionRows.UnprotectedDismissal: shows one state; that no run reaches such a state is `ReviewRuns.RunKeeps`.
- Listing and reading reviews, rule health, configuration, membership and API keys, file materialisation and the
  external analyzers, the web layer: no state worth a proof here.
- Path normalisation: paths are compared as they come, as the code does.
