// The scanner as written, and the rule built on it: a database call inside a loop body.
module JavaLoopRule {
  import opened Strings
  import opened JavaLoops
  import opened JavaKeywords
  import JavaBlanking
  import JavaBodies
  import JavaScan
  import JavaSemis
  import JavaTrees

  /** The lookahead behind a loop header. */
  method FirstBeyondSpaces(code: string, start: nat) returns (body: nat)
    requires start <= |code|
    ensures body == SkipSpaces(code, start)
    ensures start <= body <= |code| && forall k :: start <= k < body ==> IsSpace(code[k])
    ensures body < |code| ==> !IsSpace(code[body])
  {
    body := start;
    while body < |code| && IsSpace(code[body])
      invariant start <= body <= |code|
      invariant SkipSpaces(code, start) == SkipSpaces(code, body)
    {
      body := body + 1;
    }
  }

  /** Leave every range that has ended, as far as the top of the stack shows. */
  method LeaveRanges(ends: seq<nat>, depth: int, index: nat) returns (endsLeft: seq<nat>, depthLeft: int)
    ensures forall st: State :: st.ends == ends && st.depth == depth && st.index == index
                                ==> PopEnds(st) == st.(ends := endsLeft, depth := depthLeft)
  {
    endsLeft, depthLeft := ends, depth;
    while endsLeft != [] && index >= Last(endsLeft)
      invariant forall st: State :: st.ends == ends && st.depth == depth && st.index == index
                                    ==> PopEnds(st) == PopEnds(st.(ends := endsLeft, depth := depthLeft))
    {
      endsLeft, depthLeft := Init(endsLeft), depthLeft - 1;
    }
  }

  /** One character of a loop header: only the parentheses matter, and the last tells what the body is. */
  method InHeader(code: string, ghost st: State, index: nat, parens: nat, pending: bool, braceless: seq<nat>, blocks: nat,
                  depth: int)
    returns (parens': nat, pending': bool, braceless': seq<nat>, depth': int)
    requires index == st.index < |code| && parens == st.parens > 0 && pending == st.pending
    requires braceless == st.braceless && blocks == |st.blocks| && depth == st.depth
    ensures HeaderStep(code, st) == st.(index := index + 1, parens := parens', pending := pending',
                                        braceless := braceless', depth := depth')
  {
    parens', pending', braceless', depth' := parens, pending, braceless, depth;
    if code[index] == '(' {
      parens' := parens + 1;
    } else if code[index] == ')' {
      parens' := parens - 1;
      if parens' == 0 {
        var body := FirstBeyondSpaces(code, index + 1);
        if body < |code| && code[body] == '{' {
          pending' := true;
        } else {
          braceless' := braceless + [blocks];
          depth' := depth + 1;
        }
      }
    }
  }

  /** What is found is the lines of the tree's loop bodies, but for the ends of `do` and the loop bodies in headers; and it
      is exactly those lines if and only if every `do` ends on one of them and no header holds one that is not found. */
  ghost predicate RightLines(t: JavaTrees.Java, inside: set<nat>) {
    var m := JavaTrees.Marks(t, false);
    var bodies, ends, heads := JavaTrees.BodyLines(m, 1), JavaBodies.TailLines(m, 1), JavaBodies.HeadLines(m, 1);
    && inside == JavaTrees.BodyLines(JavaBodies.Taken(m), 1) && inside + heads == bodies + ends
    && (inside == bodies <==> ends <= bodies && heads <= inside)
  }

  /** The lines the reader with the scanner's counters takes for loop bodies. */
  ghost function LinesRead(t: JavaTrees.Java): set<nat> {
    JavaTrees.BodyLines(JavaTrees.Read(t, 0, JavaTrees.Held([], 0)).marks, 1)
  }

  /** Of any tree with this text the lines are those the reader takes for loop bodies, and where every loop without braces
      is closed by its body, the right ones as far as `RightLines` goes. */
  ghost predicate FindsBodies(code: string, inside: set<nat>) {
    && (forall t | JavaTrees.FitsAt(t, code, 0) && JavaTrees.Show(t) == code :: inside == LinesRead(t))
    && (forall t | JavaTrees.WellFormed(t) && JavaTrees.Show(t) == code && JavaSemis.Right(t, false) ::
          RightLines(t, inside))
  }

  /** The scanner as written, with its three stacks and its counters as local variables. */
  method LinesInsideALoop(code: string) returns (inside: set<nat>)
    ensures inside == RunTo(code, Start, |code|).inside && FindsBodies(code, inside)
  {
    hide Step, PopEnds, LoopHeadAt, DoBlockAt, ForEachAt, Close, RunTo, Opening, Balance, FindsBodies;
    var blockIsLoop: seq<bool>, bracelessAtDepth: seq<nat>, forEachEnds: seq<nat> := [], [], [];
    var loopDepth, nextBlockIsLoop, headerParens := 0, false, 0;
    var line, index, length := 1, 0, |code|;
    inside := {};
    while index < length
      invariant 0 <= index <= length && 0 <= headerParens && 1 <= line
      invariant RunTo(code, Start, length) == RunTo(code, State(
                  index, line, blockIsLoop, bracelessAtDepth, forEachEnds, loopDepth,
                  nextBlockIsLoop, headerParens, inside), length)
    {
      ghost var st := State(index, line, blockIsLoop, bracelessAtDepth, forEachEnds, loopDepth,
                            nextBlockIsLoop, headerParens, inside);
      var character := code[index];
      forEachEnds, loopDepth := LeaveRanges(forEachEnds, loopDepth, index);
      ghost var popped := st.(ends := forEachEnds, depth := loopDepth);
      assert popped == PopEnds(st);
      if character == '\n' {
        line := line + 1;
        index := index + 1;
        NewlineStep(code, st);
        StepsTo(code, st, popped.(line := line, index := index));
        continue;
      }
      if loopDepth > 0 && !IsSpace(character) {
        inside := inside + {line};
      }
      ghost var marked := popped.(inside := inside);
      OtherStep(code, st, marked);
      hide IsSpace;
      if headerParens > 0 {
        hide CodeStep, HeaderStep, SkipSpaces;
        headerParens, nextBlockIsLoop, bracelessAtDepth, loopDepth :=
          InHeader(code, marked, index, headerParens, nextBlockIsLoop, bracelessAtDepth, |blockIsLoop|, loopDepth);
        index := index + 1;
        ghost var turned := State(index, line, blockIsLoop, bracelessAtDepth, forEachEnds, loopDepth,
                                  nextBlockIsLoop, headerParens, inside);
        StepsTo(code, st, turned);
      } else {
        hide HeaderStep, SkipSpaces, At, Boundary;
        if character == '{' {
          blockIsLoop := blockIsLoop + [nextBlockIsLoop];
          if nextBlockIsLoop {
            loopDepth := loopDepth + 1;
          }
          nextBlockIsLoop := false;
          index := index + 1;
        } else if character == '}' {
          if blockIsLoop != [] {
            if Last(blockIsLoop) {
              loopDepth := loopDepth - 1;
            }
            blockIsLoop := Init(blockIsLoop);
          }
          index := index + 1;
        } else if character == ';' && bracelessAtDepth != [] && Last(bracelessAtDepth) == |blockIsLoop| {
          bracelessAtDepth := Init(bracelessAtDepth);
          loopDepth := loopDepth - 1;
          index := index + 1;
        } else if LoopHeadAt(code, index) {
          headerParens := 1;
          index := Opening(code, index) + 1;
        } else if DoBlockAt(code, index) {
          nextBlockIsLoop := true;
          index := index + 2;
        } else if ForEachAt(code, index) {
          var opening := Opening(code, index);
          var closing := MatchingParen(code, opening);
          forEachEnds := forEachEnds + [closing];
          loopDepth := loopDepth + 1;
          index := opening + 1;
        } else {
          index := index + 1;
        }
        ghost var turned := State(index, line, blockIsLoop, bracelessAtDepth, forEachEnds, loopDepth,
                                  nextBlockIsLoop, headerParens, inside);
        assert turned == CodeStep(code, marked);
        hide CodeStep;
        StepsTo(code, st, turned);
      }
    }
    Stopped(code, State(index, line, blockIsLoop, bracelessAtDepth, forEachEnds, loopDepth,
                        nextBlockIsLoop, headerParens, inside));
    RunFindsBodies(code);
  }

  lemma RunFindsBodies(code: string)
    ensures FindsBodies(code, RunTo(code, Start, |code|).inside)
  {
    hide JavaTrees.FitsAt, JavaTrees.IsJava, JavaTrees.Show, JavaSemis.Right, JavaTrees.Read, JavaTrees.Marks;
    hide JavaTrees.BodyLines, JavaBodies.TailLines, JavaBodies.HeadLines, JavaBodies.Taken;
    forall t | JavaTrees.FitsAt(t, code, 0) && JavaTrees.Show(t) == code
      ensures RunTo(code, Start, |code|).inside == LinesRead(t)
    {
      JavaScan.ScanFile(t);
    }
    forall t | JavaTrees.WellFormed(t) && JavaTrees.Show(t) == code && JavaSemis.Right(t, false)
      ensures RightLines(t, RunTo(code, Start, |code|).inside)
    {
      JavaBodies.RightFile(t);
    }
  }

  lemma Stopped(code: string, st: State)
    requires st.index >= |code|
    ensures RunTo(code, st, |code|) == st
  {
  }

  lemma NewlineStep(code: string, st: State)
    requires st.index < |code| && code[st.index] == '\n'
    ensures Step(code, st) == PopEnds(st).(line := st.line + 1, index := st.index + 1)
  {
  }

  lemma OtherStep(code: string, st: State, marked: State)
    requires st.index < |code| && code[st.index] != '\n'
    requires var p := PopEnds(st);
      marked == if p.depth > 0 && !IsSpace(code[p.index]) then p.(inside := p.inside + {p.line}) else p
    ensures Step(code, st) == if marked.parens > 0 then HeaderStep(code, marked) else CodeStep(code, marked)
  {
  }

  /** One turn of the loop, on the run as a whole. */
  lemma StepsTo(code: string, st: State, st': State)
    requires st.index < |code| && st' == Step(code, st)
    ensures RunTo(code, st, |code|) == RunTo(code, st', |code|)
  {
  }

  // --- a call its own block returns after ---

  /** The pattern for `return`, at offset `i`. */
  predicate ReturnAt(code: string, i: nat) {
    && At(code, i, "return") && Boundary(code, i, true)
    && (i + 6 == |code| || !(IsWord(code[i + 6]) || code[i + 6] == '$'))
  }

  lemma ReturnAtIsPrinted(code: string, i: nat)
    requires i < |code|
    ensures ReturnAt(code, i) <==> ReturnPrinted(code, i)
    ensures ReturnAt(code, i) ==> code[i] == 'r'
  {
    BoundaryIsFree(code, i);
    if ReturnAt(code, i) {
      AtIndex(code, i, "return", 0);
    }
  }

  /** Opening minus closing braces. */
  function Braces(s: string): int {
    if s == [] then 0
    else Braces(s[..|s| - 1]) + (if s[|s| - 1] == '{' then 1 else if s[|s| - 1] == '}' then -1 else 0)
  }

  /** A `return` at `j` in the very block `start` stands in, before that block ends. */
  ghost predicate ReturnsAt(code: string, start: nat, j: nat) {
    && start <= j < |code| && ReturnPrinted(code, j)
    && Braces(code[start..j]) == 0
    && forall k :: start <= k <= j ==> Braces(code[start..k]) >= 0
  }

  ghost predicate ReturnsLater(code: string, start: nat) {
    exists j :: ReturnsAt(code, start, j)
  }

  method ReturnsBeforeItsBlockEnds(code: string, start: nat) returns (later: bool)
    requires start <= |code|
    ensures later <==> ReturnsLater(code, start)
  {
    var depth := 0;
    for index := start to |code|
      invariant depth == Braces(code[start..index]) && depth >= 0
      invariant forall k :: start <= k <= index ==> Braces(code[start..k]) >= 0
      invariant forall j :: start <= j < index ==> !ReturnsAt(code, start, j)
    {
      var character := code[index];
      assert code[start..index + 1][..index - start] == code[start..index];
      ReturnAtIsPrinted(code, index);
      hide ReturnAt, ReturnPrinted;
      if character == '{' {
        depth := depth + 1;
      } else if character == '}' {
        if depth == 0 {
          assert Braces(code[start..index + 1]) == -1;
          return false;
        }
        depth := depth - 1;
      } else if depth == 0 && ReturnAt(code, index) {
        assert ReturnsAt(code, start, index);
        return true;
      }
    }
    return false;
  }

  // --- line offsets ---

  /** The offset at which line `k` (from 0) starts. */
  function LineStart(lines: seq<string>, k: nat): nat
    requires k <= |lines|
  {
    if k == 0 then 0 else LineStart(lines, k - 1) + |lines[k - 1]| + 1
  }

  lemma {:induction false} LineStartFromSecond(lines: seq<string>, k: nat)
    requires 1 <= k <= |lines|
    ensures LineStart(lines, k) == |lines[0]| + 1 + LineStart(lines[1..], k - 1)
  {
    if k > 1 {
      LineStartFromSecond(lines, k - 1);
    }
  }

  /** A line is the slice of the text at its start. */
  lemma {:induction false} LineIsSlice(lines: seq<string>, k: nat)
    requires k < |lines|
    ensures At(Join(lines, '\n'), LineStart(lines, k), lines[k])
  {
    var s := Join(lines, '\n');
    if k == 0 {
    } else {
      LineStartFromSecond(lines, k);
      LineIsSlice(lines[1..], k - 1);
      var i, rest := LineStart(lines[1..], k - 1), Join(lines[1..], '\n');
      var off := |lines[0]| + 1;
      assert s[off..] == rest;
      assert s[off + i..off + i + |lines[k]|] == rest[i..i + |lines[k]|];
    }
  }

  /** Blanking keeps every line break, so both texts split into lines of the same lengths. */
  lemma {:induction false} SplitSameShape(s: string, r: string)
    requires JavaBlanking.SameShape(s, r)
    ensures |Split(s, '\n')| == |Split(r, '\n')|
    ensures forall k :: 0 <= k < |Split(s, '\n')| ==> |Split(s, '\n')[k]| == |Split(r, '\n')[k]|
  {
    if s != [] {
      assert JavaBlanking.SameShape(s[1..], r[1..]) by {
        assert forall i :: 0 <= i < |s| - 1 ==> s[1..][i] == s[i + 1] && r[1..][i] == r[i + 1];
      }
      SplitSameShape(s[1..], r[1..]);
    }
  }

  lemma {:induction false} LineStartSameShape(a: seq<string>, b: seq<string>, k: nat)
    requires |a| == |b| && k <= |a| && forall j :: 0 <= j < |a| ==> |a[j]| == |b[j]|
    ensures LineStart(a, k) == LineStart(b, k)
  {
    if k > 0 {
      LineStartSameShape(a, b, k - 1);
    }
  }

  /** A line number means the same offsets in the source and in its blanked text. */
  lemma LinesLineUp(source: string, k: nat)
    ensures var code := JavaBlanking.Blank(JavaBlanking.Code, source);
      |Split(code, '\n')| == |Split(source, '\n')|
    ensures k < |Split(source, '\n')| ==>
      var code := JavaBlanking.Blank(JavaBlanking.Code, source);
      && |Split(code, '\n')[k]| == |Split(source, '\n')[k]|
      && LineStart(Split(code, '\n'), k) == LineStart(Split(source, '\n'), k)
      && At(source, LineStart(Split(source, '\n'), k), Split(source, '\n')[k])
      && At(code, LineStart(Split(source, '\n'), k), Split(code, '\n')[k])
  {
    var code := JavaBlanking.Blank(JavaBlanking.Code, source);
    JavaBlanking.BlankKeepsShape(JavaBlanking.Code, source);
    SplitSameShape(source, code);
    if k < |Split(source, '\n')| {
      LineStartSameShape(Split(code, '\n'), Split(source, '\n'), k);
      LineIsSlice(Split(source, '\n'), k);
      LineIsSlice(Split(code, '\n'), k);
    }
  }

  // --- the rule on one file ---

  /** One of the calls looked for: `search` gives the offset behind the first match in a line. */
  datatype Call = Call(ruleId: string, search: string -> Option<nat>)

  datatype Hit = Hit(line: nat, call: nat, quoted: string)

  /** The blanked text of a file, and the lines of its loop bodies. */
  function CodeOf(content: string): string {
    JavaBlanking.Blank(JavaBlanking.Code, content)
  }

  function InsideOf(content: string): set<nat> {
    RunTo(CodeOf(content), Start, |CodeOf(content)|).inside
  }

  /** Line `n` is the developer's, stands in a loop body and makes call `c`, and the call's block does not
      return after it. */
  ghost predicate Reported(content: string, added: set<nat>, calls: seq<Call>, n: nat, c: nat) {
    var lines := Split(CodeOf(content), '\n');
    && 1 <= n <= |lines| && c < |calls| && n in added && n in InsideOf(content)
    && calls[c].search(lines[n - 1]).Some?
    && !ReturnsLater(CodeOf(content), LineStart(lines, n - 1) + calls[c].search(lines[n - 1]).value)
  }

  /** Line `n` of the source, stripped. */
  function Quoted(content: string, n: nat): string {
    var originals := Split(content, '\n');
    if 1 <= n <= |originals| then Strip(originals[n - 1]) else ""
  }

  predicate Before(a: Hit, b: Hit) {
    a.line < b.line || (a.line == b.line && a.call < b.call)
  }

  /** A match lies in the line it was found in. */
  ghost predicate SearchesInLine(calls: seq<Call>) {
    forall c, text :: 0 <= c < |calls| && calls[c].search(text).Some? ==> calls[c].search(text).value <= |text|
  }

  /** `found` lists, in order and once each, the hits of the lines before `n` and of the first `c` calls on line `n`. */
  ghost predicate Listed(content: string, added: set<nat>, calls: seq<Call>, found: seq<Hit>, n: nat, c: nat) {
    && (forall i, j :: 0 <= i < j < |found| ==> Before(found[i], found[j]))
    && (forall h :: h in found <==>
          Reported(content, added, calls, h.line, h.call)
          && (h.line < n || (h.line == n && h.call < c)) && h.quoted == Quoted(content, h.line))
  }

  /** Whether a call is found on a line and nothing returns before its block ends. */
  method RepeatsHere(code: string, line: string, lineStart: nat, call: Call) returns (hit: bool)
    requires lineStart + |line| <= |code|
    requires call.search(line).Some? ==> call.search(line).value <= |line|
    ensures hit <==> call.search(line).Some? && !ReturnsLater(code, lineStart + call.search(line).value)
  {
    hide ReturnsLater;
    var end := call.search(line);
    if end.None? {
      return false;
    }
    var later := ReturnsBeforeItsBlockEnds(code, lineStart + end.value);
    return !later;
  }

  /** All calls tried on one added line of a loop body. */
  method CallsOnLine(ghost content: string, ghost added: set<nat>, calls: seq<Call>, code: string, line: string,
                     lineStart: nat, quoted: string, n: nat, before: seq<Hit>) returns (found: seq<Hit>)
    requires code == CodeOf(content) && SearchesInLine(calls) && n in added && n in InsideOf(content)
    requires 1 <= n <= |Split(code, '\n')| && line == Split(code, '\n')[n - 1] && lineStart == LineStart(Split(code, '\n'), n - 1)
    requires lineStart + |line| <= |code| && quoted == Quoted(content, n)
    requires Listed(content, added, calls, before, n, 0)
    ensures Listed(content, added, calls, found, n, |calls|)
  {
    hide CodeOf, InsideOf, Split, LineStart, Quoted, Reported, Listed, ReturnsLater;
    found := before;
    for c := 0 to |calls|
      invariant Listed(content, added, calls, found, n, c)
    {
      var hit := RepeatsHere(code, line, lineStart, calls[c]);
      ReportedHere(content, added, calls, n, c, hit);
      ListedNext(content, added, calls, found, n, c, hit);
      if hit {
        found := found + [Hit(n, c, quoted)];
      }
    }
  }

  /** The rule reports a call exactly when it is the developer's, sits in a loop body and is not followed by a
      `return` of its own block, and quotes the source line the blanked one stands for. */
  method CallsInLoop(content: string, added: set<nat>, calls: seq<Call>) returns (found: seq<Hit>)
    requires SearchesInLine(calls)
    ensures forall i, j :: 0 <= i < j < |found| ==>
              found[i].line < found[j].line || (found[i].line == found[j].line && found[i].call < found[j].call)
    ensures forall h :: h in found
                        <==> && Reported(content, added, calls, h.line, h.call)
                             && 1 <= h.line <= |Split(content, '\n')| && h.quoted == Strip(Split(content, '\n')[h.line - 1])
  {
    hide Reported, ReturnsLater, Listed, RunTo, Split, Strip, SearchesInLine, JavaBlanking.Blank;
    found := [];
    var code := JavaBlanking.BlankJavaNoise(content);
    var inside := LinesInsideALoop(code);
    var originals, lines := Split(content, '\n'), Split(code, '\n');
    var offset := 0;
    LinesLineUp(content, 0);
    ListedNothing(content, added, calls);
    for k := 0 to |lines|
      invariant offset == LineStart(lines, k)
      invariant Listed(content, added, calls, found, k + 1, 0)
    {
      var lineNo, lineStart := k + 1, offset;
      LinesLineUp(content, k);
      offset := offset + |lines[k]| + 1;
      if lineNo in added && lineNo in inside {
        found := CallsOnLine(content, added, calls, code, lines[k], lineStart, Strip(originals[k]), lineNo, found);
        ListedLine(content, added, calls, found, lineNo, |calls|);
      } else {
        ListedLine(content, added, calls, found, lineNo, 0);
      }
    }
    ListedAll(content, added, calls, found);
  }

  lemma ReportedHere(content: string, added: set<nat>, calls: seq<Call>, n: nat, c: nat, hit: bool)
    requires 1 <= n <= |Split(CodeOf(content), '\n')| && c < |calls| && n in added && n in InsideOf(content)
    requires var lines := Split(CodeOf(content), '\n');
      var end := calls[c].search(lines[n - 1]);
      hit <==> end.Some? && !ReturnsLater(CodeOf(content), LineStart(lines, n - 1) + end.value)
    ensures hit <==> Reported(content, added, calls, n, c)
  {
    hide InsideOf, CodeOf, Split, ReturnsLater, LineStart;
  }

  lemma ListedNothing(content: string, added: set<nat>, calls: seq<Call>)
    ensures Listed(content, added, calls, [], 1, 0)
  {
  }

  lemma ListedNext(content: string, added: set<nat>, calls: seq<Call>, found: seq<Hit>, n: nat, c: nat, hit: bool)
    requires Listed(content, added, calls, found, n, c)
    requires hit <==> Reported(content, added, calls, n, c)
    ensures Listed(content, added, calls, if hit then found + [Hit(n, c, Quoted(content, n))] else found, n, c + 1)
  {
    hide Reported, Quoted;
  }

  /** A line is done when all calls were tried on it, or when no call on it can count. */
  lemma ListedLine(content: string, added: set<nat>, calls: seq<Call>, found: seq<Hit>, n: nat, c: nat)
    requires Listed(content, added, calls, found, n, c)
    requires c == |calls| || n !in added || n !in InsideOf(content)
    ensures Listed(content, added, calls, found, n + 1, 0)
  {
    hide InsideOf, CodeOf, Split, ReturnsLater, Quoted;
  }

  lemma ListedAll(content: string, added: set<nat>, calls: seq<Call>, found: seq<Hit>)
    requires Listed(content, added, calls, found, |Split(CodeOf(content), '\n')| + 1, 0)
    ensures forall i, j :: 0 <= i < j < |found| ==>
              found[i].line < found[j].line || (found[i].line == found[j].line && found[i].call < found[j].call)
    ensures forall h :: h in found
                        <==> && Reported(content, added, calls, h.line, h.call)
                             && 1 <= h.line <= |Split(content, '\n')| && h.quoted == Strip(Split(content, '\n')[h.line - 1])
  {
    LinesLineUp(content, 0);
    assert |Split(CodeOf(content), '\n')| == |Split(content, '\n')|;
    hide InsideOf, CodeOf, Split, ReturnsLater, Reported, Quoted, Strip, JavaBlanking.Blank;
    InOrder(found);
    hide Before;
    forall h: Hit
      ensures h in found
              <==> && Reported(content, added, calls, h.line, h.call)
                   && 1 <= h.line <= |Split(content, '\n')| && h.quoted == Strip(Split(content, '\n')[h.line - 1])
    {
      ReportedLine(content, added, calls, h.line, h.call);
    }
  }

  lemma InOrder(found: seq<Hit>)
    ensures (forall i, j :: 0 <= i < j < |found| ==> Before(found[i], found[j])) ==>
              forall i, j :: 0 <= i < j < |found| ==>
                found[i].line < found[j].line || (found[i].line == found[j].line && found[i].call < found[j].call)
  {
  }

  lemma ReportedLine(content: string, added: set<nat>, calls: seq<Call>, n: nat, c: nat)
    ensures Reported(content, added, calls, n, c) ==> 1 <= n <= |Split(CodeOf(content), '\n')|
    ensures 1 <= n <= |Split(content, '\n')| ==> Quoted(content, n) == Strip(Split(content, '\n')[n - 1])
  {
    hide InsideOf, CodeOf, Split, ReturnsLater;
  }
}
