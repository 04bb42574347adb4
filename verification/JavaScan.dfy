// The scanner reads every printed tree the way `JavaTrees.Read` does: from any state, over the text of any tree that reads
// as what it is, with the three stacks and the depth as the reader leaves them. Nothing is asked of the bodies or of what
// the stacks hold.
module JavaScan {
  import opened Strings
  import opened JavaLoops
  import opened JavaTrees

  // --- running the scanner over a stretch of text ---

  /** The scanner gets from `st` to `st'`, stopping exactly there. */
  ghost predicate Reaches(code: string, st: State, st': State) {
    st.index <= st'.index <= |code| && RunTo(code, st, st'.index) == st'
  }

  lemma {:induction false} RunInTwo(code: string, st: State, mid: nat, limit: nat)
    requires mid <= limit <= |code|
    ensures RunTo(code, RunTo(code, st, mid), limit) == RunTo(code, st, limit)
    decreases |code| - st.index
  {
    if st.index < mid {
      RunInTwo(code, Step(code, st), mid, limit);
    }
  }

  lemma Then(code: string, a: State, b: State, c: State)
    requires Reaches(code, a, b) && Reaches(code, b, c)
    ensures Reaches(code, a, c)
  {
    RunInTwo(code, a, b.index, c.index);
  }

  lemma Once(code: string, st: State)
    requires st.index < |code|
    ensures Reaches(code, st, Step(code, st))
  {
    var st' := Step(code, st);
    assert RunTo(code, st', st'.index) == st';
  }

  /** `st` moved over marked text: only the index, the line number and the lines found change. */
  function Advance(st: State, m: seq<Mark>): State {
    st.(index := st.index + |m|, line := st.line + Breaks(m), inside := st.inside + BodyLines(m, st.line))
  }

  lemma {:induction false} BreaksConcat(a: seq<Mark>, b: seq<Mark>)
    ensures Breaks(a + b) == Breaks(a) + Breaks(b)
  {
    if a == [] {
      assert a + b == b;
    } else {
      assert (a + b)[1..] == a[1..] + b;
      BreaksConcat(a[1..], b);
    }
  }

  lemma {:induction false} BodyLinesConcat(a: seq<Mark>, b: seq<Mark>, line: nat)
    ensures BodyLines(a + b, line) == BodyLines(a, line) + BodyLines(b, line + Breaks(a))
  {
    if a == [] {
      assert a + b == b;
    } else {
      assert (a + b)[1..] == a[1..] + b;
      BodyLinesConcat(a[1..], b, if a[0].c == '\n' then line + 1 else line);
    }
  }

  lemma AdvanceTwice(st: State, a: seq<Mark>, b: seq<Mark>)
    ensures Advance(Advance(st, a), b) == Advance(st, a + b)
  {
    BreaksConcat(a, b);
    BodyLinesConcat(a, b, st.line);
  }

  /** No range of the stack ends before `limit`. */
  predicate EndsBeyond(st: State, limit: nat) {
    forall k :: 0 <= k < |st.ends| ==> limit <= st.ends[k]
  }

  /** Moving over one character. */
  lemma OneMark(st: State, m: Mark)
    ensures Advance(st, [m]) == st.(
      index := st.index + 1,
      line := if m.c == '\n' then st.line + 1 else st.line,
      inside := if m.c != '\n' && m.inBody && !IsSpace(m.c) then st.inside + {st.line} else st.inside)
  {
    assert [m][1..] == [];
    var marked := if m.c != '\n' && m.inBody && !IsSpace(m.c) then {st.line} else {};
    assert Breaks([m]) == if m.c == '\n' then 1 else 0;
    assert BodyLines([m], st.line) == marked by {
      assert BodyLines([], st.line) == BodyLines([], st.line + 1) == {};
    }
    assert Advance(st, [m]).index == st.index + 1;
    assert Advance(st, [m]).line == if m.c == '\n' then st.line + 1 else st.line;
    assert st.inside + marked == if marked == {} then st.inside else st.inside + {st.line};
  }

  lemma QuietStep(code: string, st: State)
    requires st.index < |code| && st.parens == 0 && EndsBeyond(st, st.index + 1)
    requires Quiet(code, st.index)
      || (code[st.index] == ';' && (st.braceless == [] || Last(st.braceless) != |st.blocks|))
    ensures Step(code, st) == Advance(st, [Mark(code[st.index], st.depth > 0, Plain)])
  {
    hide LoopHeadAt, DoBlockAt, ForEachAt;
    var c := code[st.index];
    assert PopEnds(st) == st;
    var m := Mark(c, st.depth > 0, Plain);
    OneMark(st, m);
    if c == ';' {
      KeywordStarts(code, st.index);
    }
  }

  /** What a keyword pattern can start on. */
  lemma KeywordStarts(code: string, i: nat)
    requires i < |code|
    ensures LoopHeadAt(code, i) ==> code[i] == 'f' || code[i] == 'w'
    ensures DoBlockAt(code, i) ==> code[i] == 'd'
    ensures ForEachAt(code, i) ==> code[i] == 'f'
  {
    assert forall word :: At(code, i, word) && word != [] ==> code[i] == word[0];
  }

  /** Text the scanner only walks past. */
  lemma {:induction false} QuietRun(code: string, st: State, s: string)
    requires At(code, st.index, s) && st.parens == 0 && EndsBeyond(st, st.index + |s|)
    requires forall k :: st.index <= k < st.index + |s| ==> Quiet(code, k)
    ensures Reaches(code, st, Advance(st, Tag(s, st.depth > 0)))
    decreases |s|
  {
    hide Quiet, Step;
    if s != [] {
      var one := Advance(st, Tag(s[..1], st.depth > 0));
      assert s == s[..1] + s[1..];
      AtConcat(code, st.index, s[..1], s[1..]);
      QuietStep(code, st);
      Once(code, st);
      assert Tag(s[..1], st.depth > 0) == [Mark(code[st.index], st.depth > 0, Plain)];
      QuietRun(code, one, s[1..]);
      AdvanceTwice(st, Tag(s[..1], st.depth > 0), Tag(s[1..], st.depth > 0));
      assert Tag(s, st.depth > 0) == Tag(s[..1], st.depth > 0) + Tag(s[1..], st.depth > 0);
      Then(code, st, one, Advance(one, Tag(s[1..], st.depth > 0)));
    }
  }

  lemma SpaceRun(code: string, st: State, s: string)
    requires At(code, st.index, s) && AllSpace(s) && st.parens == 0 && EndsBeyond(st, st.index + |s|)
    ensures Reaches(code, st, Advance(st, Tag(s, st.depth > 0)))
  {
    forall k | st.index <= k < st.index + |s|
      ensures Quiet(code, k)
    {
      assert code[k] == s[k - st.index];
      KeywordStarts(code, k);
    }
    QuietRun(code, st, s);
  }

  // --- keywords, which the scanner jumps over ---

  lemma {:induction false} SkipOver(code: string, i: nat, gap: string)
    requires At(code, i, gap) && AllSpace(gap) && i + |gap| < |code| && !IsSpace(code[i + |gap|])
    ensures SkipSpaces(code, i) == i + |gap|
    decreases |gap|
  {
    if gap != [] {
      assert code[i] == gap[0];
      assert code[i + 1..i + |gap|] == code[i..i + |gap|][1..];
      SkipOver(code, i + 1, gap[1..]);
    }
  }

  /** A keyword, white space and an opening character, printed at `i`. */
  lemma WordPrinted(code: string, i: nat, word: string, gap: string, c: char)
    requires At(code, i, word + gap + [c]) && AllSpace(gap) && !IsSpace(c)
    ensures WordThen(code, i, word, c) && SkipSpaces(code, i + |word|) == i + |word| + |gap|
  {
    AtConcat(code, i, word + gap, [c]);
    AtConcat(code, i, word, gap);
    assert code[i + |word| + |gap|] == c;
    SkipOver(code, i + |word|, gap);
  }

  lemma {:induction false} OneLineTags(s: string, inBody: bool, line: nat)
    requires '\n' !in s
    ensures Breaks(Tag(s, inBody)) == 0
    ensures BodyLines(Tag(s, inBody), line) <= (if inBody then {line} else {})
    ensures inBody && s != [] && !IsSpace(s[0]) ==> BodyLines(Tag(s, inBody), line) == {line}
  {
    if s != [] {
      assert Tag(s, inBody)[1..] == Tag(s[1..], inBody);
      OneLineTags(s[1..], inBody, line);
    }
  }

  lemma AdvanceWord(st: State, s: string, inBody: bool)
    requires s != [] && '\n' !in s && !IsSpace(s[0])
    ensures Advance(st, Tag(s, inBody))
         == st.(index := st.index + |s|, inside := if inBody then st.inside + {st.line} else st.inside)
  {
    OneLineTags(s, inBody, st.line);
    assert !inBody ==> st.inside + BodyLines(Tag(s, inBody), st.line) == st.inside;
  }

  /** At a loop keyword the scanner jumps behind the `(` and counts no line break on the way. */
  lemma HeadStep(code: string, st: State, kw: string, gap: string)
    requires kw == "for" || kw == "while"
    requires At(code, st.index, kw + gap + "(") && AllSpace(gap) && Boundary(code, st.index, true)
    requires st.parens == 0 && EndsBeyond(st, st.index + 1)
    ensures Step(code, st) == st.(index := st.index + |kw + gap + "("|, parens := 1,
                                  inside := if st.depth > 0 then st.inside + {st.line} else st.inside)
  {
    var i := st.index;
    WordPrinted(code, i, kw, gap, '(');
    WordOpens(code, i, kw, '(');
    assert LoopHeadAt(code, i) && Opening(code, i) == i + |kw| + |gap|;
    assert code[i] == code[i..i + |kw|][0] == kw[0];
    assert PopEnds(st) == st;
    hide Boundary, WordThen, IndexOf;
  }

  lemma DoStep(code: string, st: State, space: string)
    requires At(code, st.index, "do" + space + "{") && AllSpace(space) && Boundary(code, st.index, true)
    requires st.parens == 0 && EndsBeyond(st, st.index + 1)
    ensures Step(code, st) == Advance(st, Tag("do", st.depth > 0)).(pending := true)
  {
    var i := st.index;
    WordPrinted(code, i, "do", space, '{');
    assert DoBlockAt(code, i);
    assert code[i] == code[i..i + 2][0] == 'd';
    KeywordStarts(code, i);
    AdvanceWord(st, "do", st.depth > 0);
    assert PopEnds(st) == st;
  }

  /** `forEach` is no `for`: what follows the three letters is neither white space nor a parenthesis. */
  lemma ForEachIsNoHead(code: string, i: nat)
    requires At(code, i, "forEach")
    ensures i < |code| && code[i] == 'f' && !LoopHeadAt(code, i) && !DoBlockAt(code, i)
  {
    var w := code[i..i + 7];
    assert code[i] == w[0] && code[i + 3] == w[3] == 'E';
    KeywordStarts(code, i);
    assert forall word :: At(code, i, word) && word != [] ==> code[i] == word[0];
  }

  lemma ForEachPrinted(code: string, i: nat, gap: string)
    requires At(code, i, Word(gap)) && AllSpace(gap) && Boundary(code, i, false)
    ensures i < |code| && code[i] == 'f' && ForEachAt(code, i) && !LoopHeadAt(code, i) && !DoBlockAt(code, i)
    ensures Opening(code, i) == i + 7 + |gap|
  {
    hide LoopHeadAt, DoBlockAt, Boundary, At;
    WordPrinted(code, i, "forEach", gap, '(');
    WordOpens(code, i, "forEach", '(');
    AtConcat(code, i, "forEach" + gap, "(");
    AtConcat(code, i, "forEach", gap);
    ForEachIsNoHead(code, i);
  }

  lemma ForEachStep(code: string, st: State, gap: string)
    requires At(code, st.index, Word(gap)) && AllSpace(gap) && '\n' !in gap && Boundary(code, st.index, false)
    requires st.parens == 0 && EndsBeyond(st, st.index + 1)
    ensures var word := Word(gap);
      var opening := st.index + |word| - 1;
      opening < |code| && code[opening] == '(' &&
      Step(code, st) == Advance(st, Tag(word, st.depth > 0)).(
        ends := st.ends + [Close(code, opening, 0)], depth := st.depth + 1)
  {
    hide LoopHeadAt, DoBlockAt, ForEachAt, Boundary, At, Close;
    ForEachPrinted(code, st.index, gap);
    AdvanceWord(st, Word(gap), st.depth > 0);
    assert PopEnds(st) == st;
  }

  // --- loop headers ---

  /** Inside a header only the parentheses are counted. */
  lemma {:induction false} HeaderRun(code: string, st: State, s: string)
    requires At(code, st.index, s) && st.parens == 1 && Balanced(s) && EndsBeyond(st, st.index + |s|)
    ensures Reaches(code, st, Advance(st, Tag(s, st.depth > 0)))
  {
    HeaderPrefix(code, st, s, |s|);
    assert s[..|s|] == s;
  }

  /** `st` behind the first `n` characters of its header. */
  function InHeader(st: State, s: string, n: nat): State
    requires n <= |s|
  {
    Advance(st, Tag(s[..n], st.depth > 0)).(parens := if Balance(s[..n]) < 0 then 0 else 1 + Balance(s[..n]))
  }

  lemma HeaderNext(code: string, st: State, s: string, n: nat)
    requires At(code, st.index, s) && 0 < n <= |s| && EndsBeyond(st, st.index + |s|)
    requires Balance(s[..n - 1]) >= 0 && Balance(s[..n]) >= 0
    ensures var before := InHeader(st, s, n - 1);
      before.index == st.index + n - 1 < |code| && Step(code, before) == InHeader(st, s, n)
  {
    hide Step, BodyLines, Breaks, At, Tag;
    var before, m := InHeader(st, s, n - 1), Mark(s[n - 1], st.depth > 0, Plain);
    AtIndex(code, st.index, s, n - 1);
    TagLength(s[..n - 1], st.depth > 0);
    BalanceNext(s, 0, n - 1);
    assert s[0..n] == s[..n] && s[0..n - 1] == s[..n - 1];
    HeaderStepsOver(code, before);
    AdvanceTwice(st, Tag(s[..n - 1], st.depth > 0), [m]);
    TagNext(s, n, st.depth > 0);
  }

  lemma InHeaderNone(st: State, s: string)
    requires st.parens == 1
    ensures InHeader(st, s, 0) == st
  {
    assert s[..0] == [] && Tag([], st.depth > 0) == [];
    AdvanceNone(st);
  }

  lemma TagNext(s: string, n: nat, inBody: bool)
    requires 0 < n <= |s|
    ensures Tag(s[..n], inBody) == Tag(s[..n - 1], inBody) + [Mark(s[n - 1], inBody, Plain)]
  {
  }

  lemma {:induction false} HeaderPrefix(code: string, st: State, s: string, n: nat)
    requires At(code, st.index, s) && st.parens == 1 && Balanced(s) && EndsBeyond(st, st.index + |s|)
    requires n <= |s|
    ensures Reaches(code, st, InHeader(st, s, n))
  {
    hide Step, InHeader, Reaches;
    if n == 0 {
      InHeaderNone(st, s);
      Still(code, st);
    } else {
      HeaderPrefix(code, st, s, n - 1);
      HeaderNext(code, st, s, n);
      Once(code, InHeader(st, s, n - 1));
      Then(code, st, InHeader(st, s, n - 1), InHeader(st, s, n));
    }
  }

  lemma HeaderStepsOver(code: string, st: State)
    requires st.index < |code| && st.parens > 0 && EndsBeyond(st, st.index + 1)
    requires code[st.index] == ')' ==> st.parens > 1
    ensures Step(code, st) == Advance(st, [Mark(code[st.index], st.depth > 0, Plain)]).(
      parens := st.parens + (if code[st.index] == '(' then 1 else if code[st.index] == ')' then -1 else 0))
  {
    assert PopEnds(st) == st;
    OneMark(st, Mark(code[st.index], st.depth > 0, Plain));
  }

  /** The `)` that ends a header decides how the body is closed. */
  lemma HeaderEnds(code: string, st: State)
    requires st.index < |code| && st.parens == 1 && code[st.index] == ')' && EndsBeyond(st, st.index + 1)
    ensures var st' := Advance(st, Tag(")", st.depth > 0)).(parens := 0);
      var body := SkipSpaces(code, st.index + 1);
      Step(code, st) == if body < |code| && code[body] == '{' then st'.(pending := true)
                        else st'.(braceless := st.braceless + [|st.blocks|], depth := st.depth + 1)
  {
    hide CodeStep, SkipSpaces, BodyLines, Breaks, HeaderStep;
    assert PopEnds(st) == st;
    var marked := if st.depth > 0 then st.(inside := st.inside + {st.line}) else st;
    assert Step(code, st) == HeaderStep(code, marked);
    hide Step;
    OneMark(st, Mark(')', st.depth > 0, Plain));
    assert Tag(")", st.depth > 0) == [Mark(')', st.depth > 0, Plain)];
    HeaderCloses(code, marked);
  }

  lemma HeaderCloses(code: string, st: State)
    requires st.index < |code| && st.parens == 1 && code[st.index] == ')'
    ensures var st' := st.(index := st.index + 1, parens := 0);
      var body := SkipSpaces(code, st.index + 1);
      HeaderStep(code, st) == if body < |code| && code[body] == '{' then st'.(pending := true)
                              else st'.(braceless := st.braceless + [|st.blocks|], depth := st.depth + 1)
  {
  }

  lemma HeadOpens(code: string, st: State, kw: string, gap: string, header: string)
    requires kw == "for" || kw == "while"
    requires At(code, st.index, kw + gap + "(" + header)
    requires AllSpace(gap) && '\n' !in gap && Balanced(header) && Boundary(code, st.index, true)
    requires st.parens == 0 && EndsBeyond(st, st.index + |kw + gap + "(" + header|)
    ensures Reaches(code, st, Advance(st, Tag(kw + gap + "(" + header, st.depth > 0)).(parens := 1))
  {
    hide Step, Boundary, Reaches, Balanced, BodyLines, Breaks;
    var inBody := st.depth > 0;
    var word := kw + gap + "(";
    AtConcat(code, st.index, word, header);
    HeadStep(code, st, kw, gap);
    Once(code, st);
    AdvanceWord(st, word, inBody);
    var one := Advance(st, Tag(word, inBody)).(parens := 1);
    HeaderRun(code, one, header);
    Then(code, st, one, Advance(one, Tag(header, inBody)));
    AdvanceTwice(st, Tag(word, inBody), Tag(header, inBody));
    assert Tag(word + header, inBody) == Tag(word, inBody) + Tag(header, inBody);
  }

  /** From a loop keyword to behind the `)` of its header. */
  lemma HeadRun(code: string, st: State, kw: string, gap: string, header: string)
    requires kw == "for" || kw == "while"
    requires At(code, st.index, Head(kw, gap, header))
    requires AllSpace(gap) && '\n' !in gap && Balanced(header) && Boundary(code, st.index, true)
    requires st.parens == 0 && EndsBeyond(st, st.index + |Head(kw, gap, header)|)
    ensures var st' := Advance(st, Tag(Head(kw, gap, header), st.depth > 0));
      var body := SkipSpaces(code, st'.index);
      Reaches(code, st, if body < |code| && code[body] == '{' then st'.(pending := true)
                        else st'.(braceless := st.braceless + [|st.blocks|], depth := st.depth + 1))
  {
    hide Step, SkipSpaces, Boundary, Reaches, Balanced, BodyLines, Breaks, At, IsSpace, Tag;
    var inBody := st.depth > 0;
    var text := kw + gap + "(" + header;
    assert Head(kw, gap, header) == text + ")";
    AtConcat(code, st.index, text, ")");
    HeadOpens(code, st, kw, gap, header);
    TagLength(text, inBody);
    TagLength(")", inBody);
    var two := Advance(st, Tag(text, inBody)).(parens := 1);
    AtOne(code, two.index, ')');
    HeaderEnds(code, two);
    Once(code, two);
    Then(code, st, two, Step(code, two));
    AdvanceTwice(st, Tag(text, inBody), Tag(")", inBody));
    TagConcat(text, ")", inBody);
  }

  lemma TagConcat(a: string, b: string, inBody: bool)
    ensures Tag(a + b, inBody) == Tag(a, inBody) + Tag(b, inBody)
  {
  }

  // --- braces, and the ends of bodies ---

  lemma OpenBrace(code: string, st: State)
    requires st.index < |code| && code[st.index] == '{' && st.parens == 0 && EndsBeyond(st, st.index + 1)
    ensures Step(code, st) == Advance(st, Tag("{", st.depth > 0)).(
      blocks := st.blocks + [st.pending], depth := st.depth + (if st.pending then 1 else 0), pending := false)
  {
    assert PopEnds(st) == st;
    assert Tag("{", st.depth > 0) == [Mark('{', st.depth > 0, Plain)];
    OneMark(st, Mark('{', st.depth > 0, Plain));
  }

  lemma CloseBrace(code: string, st: State)
    requires st.index < |code| && code[st.index] == '}' && st.parens == 0 && EndsBeyond(st, st.index + 1)
    requires st.blocks != []
    ensures Step(code, st) == Advance(st, Tag("}", st.depth > 0)).(
      blocks := Init(st.blocks), depth := st.depth - (if Last(st.blocks) then 1 else 0))
  {
    assert PopEnds(st) == st;
    assert Tag("}", st.depth > 0) == [Mark('}', st.depth > 0, Plain)];
    OneMark(st, Mark('}', st.depth > 0, Plain));
  }

  lemma CloseBrief(code: string, st: State)
    requires st.index < |code| && code[st.index] == ';' && st.parens == 0 && EndsBeyond(st, st.index + 1)
    requires st.braceless != [] && Last(st.braceless) == |st.blocks|
    ensures Step(code, st) == Advance(st, Tag(";", st.depth > 0)).(braceless := Init(st.braceless), depth := st.depth - 1)
  {
    assert PopEnds(st) == st;
    assert Tag(";", st.depth > 0) == [Mark(';', st.depth > 0, Plain)];
    OneMark(st, Mark(';', st.depth > 0, Plain));
  }

  lemma CloseArgs(code: string, st: State)
    requires st.index < |code| && code[st.index] == ')' && st.parens == 0
    requires st.ends != [] && Last(st.ends) == st.index
    requires EndsBeyond(st.(ends := Init(st.ends)), st.index + 1)
    ensures var out := st.(ends := Init(st.ends), depth := st.depth - 1);
      Step(code, st) == Advance(out, Tag(")", out.depth > 0))
  {
    hide LoopHeadAt, DoBlockAt, ForEachAt;
    var out := st.(ends := Init(st.ends), depth := st.depth - 1);
    assert PopEnds(out) == out;
    assert PopEnds(st) == out;
    assert Tag(")", out.depth > 0) == [Mark(')', out.depth > 0, Plain)];
    OneMark(out, Mark(')', out.depth > 0, Plain));
    KeywordStarts(code, st.index);
  }

  /** The parenthesis that closes balanced arguments is the one printed behind them. */
  lemma {:induction false} ArgsClose(code: string, opening: nat, s: string, k: nat)
    requires opening < |code| && code[opening] == '(' && At(code, opening + 1, s + ")") && Balanced(s) && k <= |s|
    ensures Close(code, opening + 1 + k, 1 + Balance(s[..k])) == opening + 1 + |s|
    ensures Close(code, opening, 0) == Close(code, opening + 1, 1)
    decreases |s| - k
  {
    hide At;
    AtConcat(code, opening + 1, s, ")");
    if k == |s| {
      assert s[..k] == s;
      AtOne(code, opening + 1 + k, ')');
    } else {
      AtIndex(code, opening + 1, s, k);
      BalanceNext(s, 0, k);
      assert s[0..k + 1] == s[..k + 1] && s[0..k] == s[..k];
      ArgsClose(code, opening, s, k + 1);
    }
  }

  // --- pieces put together ---

  function HeldOf(st: State): Held {
    Held(st.braceless, st.depth)
  }

  /** `st` moved over text as the reader took it. */
  function Moved(st: State, r: Reading): State {
    Advance(st, r.marks).(braceless := r.held.braceless, depth := r.held.depth)
  }

  lemma Onwards(code: string, st: State, a: Reading, b: Reading)
    requires Reaches(code, st, Moved(st, a)) && Reaches(code, Moved(st, a), Moved(Moved(st, a), b))
    ensures Reaches(code, st, Moved(st, Along(a, b))) && Moved(st, Along(a, b)) == Moved(Moved(st, a), b)
  {
    hide Reaches, BodyLines, Breaks;
    AdvanceTwice(st, a.marks, b.marks);
    Then(code, st, Moved(st, a), Moved(Moved(st, a), b));
  }

  lemma WalkRun(code: string, st: State, s: string)
    requires At(code, st.index, s) && st.parens == 0 && EndsBeyond(st, st.index + |s|)
    requires AllSpace(s) || AllQuiet(code, st.index, st.index + |s|)
    ensures Reaches(code, st, Moved(st, Walk(s, HeldOf(st))))
  {
    hide Reaches, BodyLines, Breaks, Quiet, Tag, AllSpace, At;
    if AllSpace(s) {
      SpaceRun(code, st, s);
    } else {
      QuietRun(code, st, s);
    }
    assert Moved(st, Walk(s, HeldOf(st))) == Advance(st, Tag(s, st.depth > 0));
  }

  /** A loop header with no brace behind it. */
  lemma BareHeadRun(code: string, st: State, kw: string, gap: string, header: string, space: string)
    requires HeadFits(code, st.index, kw, gap, header) && At(code, st.index, Head(kw, gap, header))
    requires var j := st.index + |Head(kw, gap, header)|; At(code, j, space) && BareAt(code, j, space)
    requires st.parens == 0 && EndsBeyond(st, st.index + |Head(kw, gap, header)| + |space|)
    ensures var h := HeldOf(st);
      var p := Pushed(h, |st.blocks|);
      Reaches(code, st, Moved(st, Along(Reading(Walk(Head(kw, gap, header), h).marks, p), Walk(space, p))))
  {
    hide Reaches, BodyLines, Breaks, Tag, Step, At, Head, Balanced, Boundary, SkipSpaces, IsSpace;
    var h := HeldOf(st);
    var head := Head(kw, gap, header);
    SkipOver(code, st.index + |head|, space);
    TagLength(head, st.depth > 0);
    HeadRun(code, st, kw, gap, header);
    var a := Reading(Walk(head, h).marks, Pushed(h, |st.blocks|));
    WalkRun(code, Moved(st, a), space);
    Onwards(code, st, a, Walk(space, a.held));
  }

  /** The scanner may stand in front of `t`: outside any header, nothing pending, and no `forEach` range ending
      inside `t`. What the other two stacks hold does not matter. */
  ghost predicate Ready(t: Java, code: string, st: State) {
    st.parens == 0 && !st.pending && FitsAt(t, code, st.index) && EndsBeyond(st, st.index + |Show(t)|)
  }

  lemma BracedPieces(code: string, i: nat, space: string, body: Java)
    requires At(code, i, Braced(space, body))
    ensures |Braced(space, body)| == |space| + |Show(body)| + 2
    ensures At(code, i, space) && At(code, i + |space|, "{") && At(code, i + |space| + 1, Show(body))
    ensures var j := i + |space| + 1 + |Show(body)|; j < |code| && code[j] == '}'
    ensures code[i + |space|] == '{'
  {
    hide At, Show;
    AtConcat(code, i, space, "{" + (Show(body) + "}"));
    AtConcat(code, i + |space|, "{", Show(body) + "}");
    AtConcat(code, i + |space| + 1, Show(body), "}");
    AtOne(code, i + |space|, '{');
    AtOne(code, i + |space| + 1 + |Show(body)|, '}');
  }

  /** White space, then an opening brace. */
  lemma OpenRun(code: string, st: State, space: string)
    requires st.parens == 0 && AllSpace(space) && EndsBeyond(st, st.index + |space| + 1)
    requires At(code, st.index, space) && At(code, st.index + |space|, "{")
    ensures Reaches(code, st, Advance(Advance(st, Tag(space, st.depth > 0)), Tag("{", st.depth > 0)).(
      blocks := st.blocks + [st.pending], depth := st.depth + (if st.pending then 1 else 0), pending := false))
  {
    hide Step, Reaches;
    SpaceRun(code, st, space);
    var a := Advance(st, Tag(space, st.depth > 0));
    assert code[a.index] == code[a.index..a.index + 1][0] == '{';
    OpenBrace(code, a);
    Once(code, a);
    Then(code, st, a, Step(code, a));
  }

  lemma AdvanceFour(st: State, a: seq<Mark>, b: seq<Mark>, c: seq<Mark>, d: seq<Mark>)
    ensures Advance(Advance(Advance(Advance(st, a), b), c), d) == Advance(st, a + (b + (c + d)))
  {
    AdvanceTwice(st, a, b + (c + d));
    AdvanceTwice(Advance(st, a), b, c + d);
    AdvanceTwice(Advance(Advance(st, a), b), c, d);
  }

  /** Behind white space and an opening brace. */
  function Opened(st: State, space: string): State {
    Advance(Advance(st, Tag(space, st.depth > 0)), Tag("{", st.depth > 0)).(
      blocks := st.blocks + [st.pending], depth := st.depth + (if st.pending then 1 else 0), pending := false)
  }

  lemma ScanToBrace(space: string, body: Java, code: string, st: State, r: Reading)
    requires st.parens == 0 && AllSpace(space)
    requires At(code, st.index, Braced(space, body)) && EndsBeyond(st, st.index + |Braced(space, body)|)
    requires FitsAt(body, code, st.index + |space| + 1)
    requires r == Read(body, |st.blocks| + 1, HeldOf(st).(depth := st.depth + if st.pending then 1 else 0))
    ensures Reaches(code, st, Moved(Opened(st, space), r))
    ensures var i := Moved(Opened(st, space), r).index;
      i < |code| && code[i] == '}' && i + 1 == st.index + |Braced(space, body)|
    decreases body, 5
  {
    hide Step, Reaches, Tag, Show, Read, BodyLines, Breaks, At, Braced, FitsAt, FirstFits, First, IsSpace;
    BracedPieces(code, st.index, space, body);
    TagLength(space, st.depth > 0);
    TagLength("{", st.depth > 0);
    OpenRun(code, st, space);
    var b := Opened(st, space);
    ScanTree(body, code, b);
    ReadLength(body, |st.blocks| + 1, HeldOf(b));
    Then(code, st, b, Moved(b, r));
  }

  /** A braced body: the braces push and pop one entry of the block stack. */
  lemma ScanBraced(space: string, body: Java, code: string, st: State)
    requires st.parens == 0 && AllSpace(space)
    requires At(code, st.index, Braced(space, body)) && EndsBeyond(st, st.index + |Braced(space, body)|)
    requires FitsAt(body, code, st.index + |space| + 1)
    ensures Reaches(code, st,
      Moved(st, ReadBraced(space, body, st.pending, |st.blocks|, HeldOf(st))).(pending := false))
    decreases body, 6
  {
    hide Step, Reaches, Tag, Show, Read, BodyLines, Breaks, At, Braced, FitsAt, FirstFits, First, IsSpace, AllSpace,
         ReadBraced;
    var r := Read(body, |st.blocks| + 1, HeldOf(st).(depth := st.depth + if st.pending then 1 else 0));
    ScanToBrace(space, body, code, st, r);
    var c := Moved(Opened(st, space), r);
    CloseBrace(code, c);
    Once(code, c);
    Then(code, st, c, Step(code, c));
    BracedMoves(space, body, st, r);
  }

  lemma BracedMoves(space: string, body: Java, st: State, r: Reading)
    requires r == Read(body, |st.blocks| + 1, HeldOf(st).(depth := st.depth + if st.pending then 1 else 0))
    ensures var c := Moved(Opened(st, space), r);
      Moved(st, ReadBraced(space, body, st.pending, |st.blocks|, HeldOf(st))).(pending := false)
      == Advance(c, Tag("}", c.depth > 0)).(blocks := st.blocks, depth := c.depth - if st.pending then 1 else 0)
  {
    hide Tag, Read, BodyLines, Breaks;
    AdvanceFour(st, Tag(space, st.depth > 0), Tag("{", st.depth > 0), r.marks, Tag("}", r.held.depth > 0));
  }

  /** Printed in front of the rest. */
  lemma FirstPiece(t: Java, code: string, i: nat)
    requires FitsAt(t, code, i) && !t.End?
    ensures At(code, i, First(t)) && FirstFits(t, code, i) && FitsAt(t.rest, code, i + |First(t)|)
    ensures |Show(t)| == |First(t)| + |Show(t.rest)|
  {
    AtConcat(code, i, First(t), Show(t.rest));
  }

  lemma LoopPieces(t: Java, code: string, i: nat)
    requires t.Loop? && FitsAt(t, code, i)
    ensures var j := i + |Head(t.kw, t.gap, Show(t.header))|;
      var k := j + |t.space|;
      && HeadFits(code, i, t.kw, t.gap, Show(t.header)) && At(code, i, Head(t.kw, t.gap, Show(t.header)))
      && At(code, j, Braced(t.space, t.body)) && At(code, j, t.space) && AllSpace(t.space)
      && k < |code| && code[k] == '{' && !IsSpace(code[k]) && FitsAt(t.body, code, k + 1)
      && |Show(t)| >= |First(t)| == j + |Braced(t.space, t.body)| - i
  {
    hide At, Show, Head, Braced;
    FirstPiece(t, code, i);
    AtConcat(code, i, Head(t.kw, t.gap, Show(t.header)), Braced(t.space, t.body));
    BracedPieces(code, i + |Head(t.kw, t.gap, Show(t.header))|, t.space, t.body);
  }

  lemma ScanLoop(t: Java, code: string, st: State)
    requires t.Loop? && Ready(t, code, st)
    ensures Reaches(code, st, Moved(st, ReadFirst(t, |st.blocks|, HeldOf(st))))
    decreases t, 0
  {
    hide Step, Reaches, Tag, BodyLines, Breaks, At, ReadBraced, Show, Braced, Head, FitsAt, First, Balanced, Boundary,
         SkipSpaces, IsSpace;
    var h, head := HeldOf(st), Head(t.kw, t.gap, Show(t.header));
    LoopPieces(t, code, st.index);
    SkipOver(code, st.index + |head|, t.space);
    HeadRun(code, st, t.kw, t.gap, Show(t.header));
    TagLength(head, st.depth > 0);
    var a := Moved(st, Walk(head, h)).(pending := true);
    var r := ReadBraced(t.space, t.body, true, |st.blocks|, h);
    ScanBraced(t.space, t.body, code, a);
    Then(code, st, a, Moved(a, r).(pending := false));
    AdvanceTwice(st, Tag(head, st.depth > 0), r.marks);
  }

  lemma BriefPieces(t: Java, code: string, i: nat)
    requires t.Brief? && FitsAt(t, code, i)
    ensures var j := i + |Head(t.kw, t.gap, Show(t.header))|;
      && HeadFits(code, i, t.kw, t.gap, Show(t.header)) && At(code, i, Head(t.kw, t.gap, Show(t.header)))
      && At(code, j, t.space) && BareAt(code, j, t.space) && FitsAt(t.body, code, j + |t.space|)
      && |Show(t)| >= |First(t)| == j + |t.space| + |Show(t.body)| - i
  {
    hide At, Show, Head;
    FirstPiece(t, code, i);
    AtConcat(code, i, Head(t.kw, t.gap, Show(t.header)), t.space + Show(t.body));
    AtConcat(code, i + |Head(t.kw, t.gap, Show(t.header))|, t.space, Show(t.body));
  }

  /** A body without braces: its header pushes an entry, and whatever `;` comes first pops it. */
  lemma ScanBrief(t: Java, code: string, st: State)
    requires t.Brief? && Ready(t, code, st)
    ensures Reaches(code, st, Moved(st, ReadFirst(t, |st.blocks|, HeldOf(st))))
    decreases t, 0
  {
    hide Reaches, Tag, BodyLines, Breaks, At, Read, Show, First, Head, FitsAt, HeadFits, BareAt;
    var h, head, level := HeldOf(st), Head(t.kw, t.gap, Show(t.header)), |st.blocks|;
    var p := Pushed(h, level);
    BriefPieces(t, code, st.index);
    BareHeadRun(code, st, t.kw, t.gap, Show(t.header), t.space);
    TagLength(head, st.depth > 0);
    TagLength(t.space, p.depth > 0);
    var a := Along(Reading(Walk(head, h).marks, p), Walk(t.space, p));
    ScanTree(t.body, code, Moved(st, a));
    Onwards(code, st, a, Read(t.body, level, p));
    assert Walk(head, h).marks + Walk(t.space, p).marks + Read(t.body, level, p).marks
        == Walk(head, h).marks + (Walk(t.space, p).marks + Read(t.body, level, p).marks);
  }

  lemma TailPieces(tail: Tail, code: string, i: nat)
    requires At(code, i, ShowTail(tail)) && TailFits(tail, code, i)
    ensures var j := i + |tail.mid|;
      var k := j + |Head("while", tail.gap, Show(tail.header))|;
      && At(code, i, tail.mid) && At(code, j, Head("while", tail.gap, Show(tail.header)))
      && At(code, k, tail.space) && BareAt(code, k, tail.space) && k + |tail.space| < |code| && code[k + |tail.space|] == ';'
      && |ShowTail(tail)| == k + |tail.space| + 1 - i
  {
    hide At, Head, HeadFits;
    var head := Head("while", tail.gap, Show(tail.header));
    AtConcat(code, i, tail.mid, head + (tail.space + ";"));
    AtConcat(code, i + |tail.mid|, head, tail.space + ";");
    AtConcat(code, i + |tail.mid| + |head|, tail.space, ";");
    AtOne(code, i + |tail.mid| + |head| + |tail.space|, ';');
  }

  /** The end of a `do`: its header pushes an entry and its own `;` pops it. */
  lemma ScanTail(tail: Tail, code: string, st: State)
    requires st.parens == 0 && EndsBeyond(st, st.index + |ShowTail(tail)|)
    requires At(code, st.index, ShowTail(tail)) && TailFits(tail, code, st.index)
    ensures Reaches(code, st, Moved(st, ReadTail(tail, HeldOf(st))))
  {
    hide Reaches, Tag, BodyLines, Breaks, At, Head, HeadFits, BareAt, Step;
    var h, head := HeldOf(st), Head("while", tail.gap, Show(tail.header));
    var p := Pushed(h, |st.blocks|);
    TailPieces(tail, code, st.index);
    TagLength(tail.mid, h.depth > 0);
    WalkRun(code, st, tail.mid);
    var a := Moved(st, Walk(tail.mid, h));
    BareHeadRun(code, a, "while", tail.gap, Show(tail.header), tail.space);
    TagLength(head, h.depth > 0);
    TagLength(tail.space, p.depth > 0);
    var b := Along(Reading(Walk(head, h).marks, p), Walk(tail.space, p));
    var c := Moved(a, b);
    CloseBrief(code, c);
    Once(code, c);
    Then(code, st, a, c);
    Then(code, st, c, Step(code, c));
    TagConcat(tail.space, ";", p.depth > 0);
    var m := Tag(tail.space, p.depth > 0);
    AdvanceTwice(a, Tag(head, h.depth > 0), m);
    AdvanceFour(st, Tag(tail.mid, h.depth > 0), Tag(head, h.depth > 0), m, Tag(";", p.depth > 0));
  }

  lemma DoPieces(t: Java, code: string, i: nat)
    requires t.Do? && FitsAt(t, code, i)
    ensures At(code, i, "do") && At(code, i + 2, BodyOf(t)) && At(code, i + 2 + |BodyOf(t)|, ShowTail(t.tail))
    ensures TailFits(t.tail, code, i + 2 + |BodyOf(t)|)
    ensures |Show(t)| >= |First(t)| == 2 + |BodyOf(t)| + |ShowTail(t.tail)|
  {
    hide At, Show, Braced, ShowTail, TailFits;
    FirstPiece(t, code, i);
    AtConcat(code, i, "do", BodyOf(t) + ShowTail(t.tail));
    AtConcat(code, i + 2, BodyOf(t), ShowTail(t.tail));
  }

  lemma DoOpens(code: string, i: nat, space: string, body: string)
    requires At(code, i, "do") && At(code, i + 2, space + ("{" + (body + "}")))
    ensures At(code, i, "do" + space + "{")
  {
    hide At;
    AtConcat(code, i + 2, space, "{" + (body + "}"));
    AtConcat(code, i + 2 + |space|, "{", body + "}");
    AtConcat(code, i + 2, space, "{");
    AtConcat(code, i, "do", space + "{");
    assert "do" + (space + "{") == "do" + space + "{";
  }

  lemma ScanDoBlock(t: Java, code: string, st: State)
    requires t.Do? && t.braced && Ready(t, code, st)
    ensures var r := ReadBraced(t.space, t.body, true, |st.blocks|, HeldOf(st));
      Reaches(code, st, Moved(st, Along(Walk("do", HeldOf(st)), r))) && |r.marks| == |BodyOf(t)|
    decreases t, 0
  {
    hide Reaches, Tag, BodyLines, Breaks, At, Step, ShowTail, TailFits, First, ReadBraced, Show, Boundary;
    var h, level := HeldOf(st), |st.blocks|;
    var r := ReadBraced(t.space, t.body, true, level, h);
    DoPieces(t, code, st.index);
    TagLength("do", st.depth > 0);
    DoOpens(code, st.index, t.space, Show(t.body));
    DoStep(code, st, t.space);
    Once(code, st);
    var a := Moved(st, Walk("do", h)).(pending := true);
    ScanBraced(t.space, t.body, code, a);
    Then(code, st, a, Moved(a, r).(pending := false));
    AdvanceTwice(st, Tag("do", st.depth > 0), r.marks);
    BracedLength(t.space, t.body, true, level, h);
  }

  lemma ScanDoBody(t: Java, code: string, st: State)
    requires t.Do? && Ready(t, code, st)
    ensures var h := HeldOf(st);
      var r := if t.braced then ReadBraced(t.space, t.body, true, |st.blocks|, h)
               else Along(Walk(t.space, h), Read(t.body, |st.blocks|, h));
      Reaches(code, st, Moved(st, Along(Walk("do", h), r))) && |r.marks| == |BodyOf(t)|
    decreases t, 1
  {
    hide Reaches, Tag, BodyLines, Breaks, At, Step, ShowTail, TailFits, First, ReadBraced, Read, Show, Boundary;
    var h, level := HeldOf(st), |st.blocks|;
    DoPieces(t, code, st.index);
    TagLength("do", st.depth > 0);
    if t.braced {
      ScanDoBlock(t, code, st);
    } else {
      DoBareFits(t, code, st.index);
      AtConcat(code, st.index + 2, t.space, Show(t.body));
      TagLength(t.space, st.depth > 0);
      WalkRun(code, st, "do");
      WalkRun(code, Moved(st, Walk("do", h)), t.space);
      Onwards(code, st, Walk("do", h), Walk(t.space, h));
      var a := Along(Walk("do", h), Walk(t.space, h));
      ScanTree(t.body, code, Moved(st, a));
      ReadLength(t.body, level, h);
      Onwards(code, st, a, Read(t.body, level, h));
      assert Walk("do", h).marks + Walk(t.space, h).marks + Read(t.body, level, h).marks
          == Walk("do", h).marks + (Walk(t.space, h).marks + Read(t.body, level, h).marks);
    }
  }

  lemma BracedLength(space: string, body: Java, loop: bool, level: nat, h: Held)
    ensures |ReadBraced(space, body, loop, level, h).marks| == |Braced(space, body)|
  {
    ReadLength(body, level + 1, h.(depth := h.depth + if loop then 1 else 0));
  }

  lemma DoBareFits(t: Java, code: string, i: nat)
    requires t.Do? && !t.braced && FitsAt(t, code, i)
    ensures AllQuiet(code, i, i + 2) && AllSpace(t.space) && FitsAt(t.body, code, i + 2 + |t.space|)
  {
    hide Quiet, FitsAt, WordAt, TailFits, Show, BodyOf, IsSpace;
    FirstPiece(t, code, i);
  }

  lemma ScanDo(t: Java, code: string, st: State)
    requires t.Do? && Ready(t, code, st)
    ensures Reaches(code, st, Moved(st, ReadFirst(t, |st.blocks|, HeldOf(st))))
    decreases t, 2
  {
    hide Reaches, Tag, BodyLines, Breaks, At, ShowTail, TailFits, First, ReadBraced, Read, ReadTail, Show, FitsAt;
    var h, level := HeldOf(st), |st.blocks|;
    DoPieces(t, code, st.index);
    ScanDoBody(t, code, st);
    TagLength("do", st.depth > 0);
    var r := if t.braced then ReadBraced(t.space, t.body, true, level, h)
             else Along(Walk(t.space, h), Read(t.body, level, h));
    var a := Along(Walk("do", h), r);
    ScanTail(t.tail, code, Moved(st, a));
    Onwards(code, st, a, ReadTail(t.tail, r.held));
    assert Walk("do", h).marks + r.marks + ReadTail(t.tail, r.held).marks
        == Walk("do", h).marks + (r.marks + ReadTail(t.tail, r.held).marks);
  }

  lemma ForEachPieces(t: Java, code: string, i: nat)
    requires t.ForEach? && FitsAt(t, code, i)
    ensures At(code, i, Word(t.gap))
    ensures var e := i + |Word(t.gap)| + |Show(t.args)|;
      e < |code| && code[e] == ')' && |Show(t)| >= |First(t)| == e + 1 - i
    ensures var o := i + |Word(t.gap)| - 1;
      o < |code| && code[o] == '(' && Close(code, o, 0) == o + 1 + |Show(t.args)|
  {
    hide At, Show;
    FirstPiece(t, code, i);
    var j := i + |Word(t.gap)|;
    AtConcat(code, i, Word(t.gap), Show(t.args) + ")");
    AtConcat(code, i, "forEach" + t.gap, "(");
    AtOne(code, j - 1, '(');
    AtConcat(code, j, Show(t.args), ")");
    AtOne(code, j + |Show(t.args)|, ')');
    ArgsClose(code, j - 1, Show(t.args), 0);
    assert Show(t.args)[..0] == "";
  }

  /** A `forEach` argument list: its range is pushed at the keyword and popped at its own `)`. */
  lemma ScanForEach(t: Java, code: string, st: State)
    requires t.ForEach? && Ready(t, code, st)
    ensures Reaches(code, st, Moved(st, ReadFirst(t, |st.blocks|, HeldOf(st))))
    decreases t, 0
  {
    hide Step, Reaches, Tag, Read, BodyLines, Breaks, At, Show, Close, Word;
    var h, word, level := HeldOf(st), Word(t.gap), |st.blocks|;
    ForEachPieces(t, code, st.index);
    ForEachStep(code, st, t.gap);
    Once(code, st);
    TagLength(word, st.depth > 0);
    var e := st.index + |word| + |Show(t.args)|;
    var a := Advance(st, Tag(word, st.depth > 0)).(ends := st.ends + [e], depth := st.depth + 1);
    ScanTree(t.args, code, a);
    var r := Read(t.args, level, h.(depth := h.depth + 1));
    ReadLength(t.args, level, h.(depth := h.depth + 1));
    var b := Moved(a, r);
    Then(code, st, a, b);
    assert Init(b.ends) == st.ends;
    CloseArgs(code, b);
    Once(code, b);
    Then(code, st, b, Step(code, b));
    var m := Tag(")", b.depth - 1 > 0);
    AdvanceTwice(st, Tag(word, st.depth > 0), r.marks);
    AdvanceTwice(st, Tag(word, st.depth > 0) + r.marks, m);
    assert Tag(word, st.depth > 0) + r.marks + m == Tag(word, st.depth > 0) + (r.marks + m);
  }

  lemma ClausePieces(t: Java, code: string, i: nat)
    requires t.Clause? && FitsAt(t, code, i)
    ensures At(code, i, t.lead + t.word) && AllQuiet(code, i, i + |t.lead + t.word|)
    ensures FitsAt(t.head, code, i + |t.lead + t.word|)
    ensures FitsAt(t.body, code, i + |t.lead + t.word| + |Show(t.head)|)
    ensures |Show(t)| >= |First(t)| == |t.lead + t.word| + |Show(t.head)| + |Show(t.body)|
  {
    hide At, Show, Quiet, WordAt;
    FirstPiece(t, code, i);
    AtConcat(code, i, t.lead + t.word, Show(t.head) + Show(t.body));
  }

  lemma ScanClause(t: Java, code: string, st: State)
    requires t.Clause? && Ready(t, code, st)
    ensures Reaches(code, st, Moved(st, ReadFirst(t, |st.blocks|, HeldOf(st))))
    decreases t, 0
  {
    hide Reaches, Tag, BodyLines, Breaks, At, Read, Show, First, FitsAt, AllQuiet;
    var h, word, level := HeldOf(st), t.lead + t.word, |st.blocks|;
    ClausePieces(t, code, st.index);
    TagLength(word, st.depth > 0);
    WalkRun(code, st, word);
    var a := Walk(word, h);
    ScanTree(t.head, code, Moved(st, a));
    var r := Read(t.head, level, h);
    ReadLength(t.head, level, h);
    Onwards(code, st, a, r);
    ScanTree(t.body, code, Moved(st, Along(a, r)));
    Onwards(code, st, Along(a, r), Read(t.body, level, r.held));
    assert a.marks + r.marks + Read(t.body, level, r.held).marks
        == a.marks + (r.marks + Read(t.body, level, r.held).marks);
  }

  lemma ScanSemi(t: Java, code: string, st: State)
    requires t.Semi? && Ready(t, code, st)
    ensures Reaches(code, st, Moved(st, ReadFirst(t, |st.blocks|, HeldOf(st))))
  {
    hide Step, Reaches, BodyLines, Breaks;
    FirstPiece(t, code, st.index);
    AtOne(code, st.index, ';');
    assert Tag(";", st.depth > 0) == [Mark(';', st.depth > 0, Plain)];
    Once(code, st);
    if st.braceless != [] && Last(st.braceless) == |st.blocks| {
      CloseBrief(code, st);
    } else {
      QuietStep(code, st);
    }
  }

  lemma ScanFirst(t: Java, code: string, st: State)
    requires !t.End? && Ready(t, code, st)
    ensures Reaches(code, st, Moved(st, ReadFirst(t, |st.blocks|, HeldOf(st))))
    decreases t, 3
  {
    hide Step, Reaches, Tag, Read, BodyLines, Breaks, Show, Head, ReadBraced, At, Quiet, ClauseAt;
    FirstPiece(t, code, st.index);
    match t
    case Text(s, _) => WalkRun(code, st, s);
    case Semi(_) => ScanSemi(t, code, st);
    case Block(body, _) => ScanBraced("", body, code, st);
    case Loop(_, _, _, _, _, _) => ScanLoop(t, code, st);
    case Brief(_, _, _, _, _, _) => ScanBrief(t, code, st);
    case Do(_, _, _, _, _) => ScanDo(t, code, st);
    case ForEach(_, _, _) => ScanForEach(t, code, st);
    case Clause(_, _, _, _, _) => ScanClause(t, code, st);
  }

  /** Behind the first piece the scanner may stand in front of the rest. */
  lemma ReadyRest(t: Java, code: string, st: State, r: Reading)
    requires !t.End? && Ready(t, code, st) && r == ReadFirst(t, |st.blocks|, HeldOf(st))
    ensures Ready(t.rest, code, Moved(st, r))
    ensures HeldOf(Moved(st, r)) == r.held && Moved(st, r).blocks == st.blocks
  {
    hide FitsAt, FirstFits, ReadFirst, First, Show, At, BodyLines, Breaks;
    FirstPiece(t, code, st.index);
    ReadLength(t, |st.blocks|, HeldOf(st));
  }

  lemma ReadsNothing(t: Java, code: string, st: State)
    requires t.End? && Ready(t, code, st)
    ensures Reaches(code, st, Moved(st, Read(t, |st.blocks|, HeldOf(st))))
  {
    hide Reaches, BodyLines, Breaks;
    AdvanceNone(st);
    Still(code, st);
  }

  /** Scanning the text of a tree from any state is reading the tree: the block and range stacks and the flags come
      back, the third stack and the depth are as the reader leaves them, and the lines added are those of the
      characters the reader takes for loop bodies. */
  lemma {:induction false} ScanTree(t: Java, code: string, st: State)
    requires Ready(t, code, st)
    ensures Reaches(code, st, Moved(st, Read(t, |st.blocks|, HeldOf(st))))
    decreases t, 4
  {
    hide Ready, Reaches, Moved, HeldOf, Read, ReadFirst, Along;
    if t.End? {
      ReadsNothing(t, code, st);
    } else {
      var r := ReadFirst(t, |st.blocks|, HeldOf(st));
      ScanFirst(t, code, st);
      ReadyRest(t, code, st, r);
      ScanTree(t.rest, code, Moved(st, r));
      ReadOn(t, |st.blocks|, HeldOf(st));
      Onwards(code, st, r, Read(t.rest, |st.blocks|, r.held));
    }
  }

  lemma AdvanceNone(st: State)
    ensures Advance(st, []) == st
  {
    assert st.inside + {} == st.inside;
  }

  lemma Still(code: string, st: State)
    requires st.index <= |code|
    ensures Reaches(code, st, st)
  {
  }

  /** A whole file, from the scanner's start. */
  lemma ScanFile(t: Java)
    requires FitsAt(t, Show(t), 0)
    ensures RunTo(Show(t), Start, |Show(t)|) == Moved(Start, Read(t, 0, Held([], 0)))
    ensures RunTo(Show(t), Start, |Show(t)|).inside == BodyLines(Read(t, 0, Held([], 0)).marks, 1)
  {
    hide Read, BodyLines, Breaks, First, FirstFits;
    ScanTree(t, Show(t), Start);
    ReadLength(t, 0, Held([], 0));
    assert {} + BodyLines(Read(t, 0, Held([], 0)).marks, 1) == BodyLines(Read(t, 0, Held([], 0)).marks, 1);
  }

  // --- where the trees stop: a line break before the parenthesis ---

  lemma {:induction false} NewlinesNone(s: string)
    ensures Newlines(s) == 0 <==> '\n' !in s
  {
    if s != [] {
      NewlinesNone(s[1..]);
      assert '\n' in s <==> s[0] == '\n' || '\n' in s[1..];
    }
  }

  /** Behind a loop keyword and its `(` the scanner's line number is right if and only if no line break stands
      between the two. */
  lemma HeadLineRightIff(code: string, st: State, kw: string, gap: string)
    requires kw == "for" || kw == "while"
    requires At(code, st.index, kw + gap + "(") && AllSpace(gap) && Boundary(code, st.index, true)
    requires st.parens == 0 && EndsBeyond(st, st.index + 1)
    ensures Step(code, st).index == st.index + |kw + gap + "("|
    ensures Step(code, st).line == st.line + Newlines(kw + gap + "(") <==> '\n' !in gap
  {
    HeadStep(code, st, kw, gap);
    NewlinesNone(kw + gap + "(");
    assert '\n' in gap <==> '\n' in kw + gap + "(";
  }

  /** So with `forEach`: the scanner jumps behind its `(`, too. */
  lemma ForEachLineRightIff(code: string, st: State, gap: string)
    requires At(code, st.index, Word(gap)) && AllSpace(gap) && Boundary(code, st.index, false)
    requires st.parens == 0 && EndsBeyond(st, st.index + 1)
    ensures Step(code, st).index == st.index + |Word(gap)|
    ensures Step(code, st).line == st.line + Newlines(Word(gap)) <==> '\n' !in gap
  {
    hide LoopHeadAt, DoBlockAt, ForEachAt, Boundary, At, Close, Newlines;
    ForEachPrinted(code, st.index, gap);
    assert PopEnds(st) == st;
    NewlinesNone(Word(gap));
    assert '\n' in gap <==> '\n' in Word(gap);
  }
}
