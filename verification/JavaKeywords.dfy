// What the loop scanner takes for a keyword, said character by character.
module JavaKeywords {
  import opened Strings
  import opened JavaLoops
  import opened JavaScan
  import JavaTrees

  /** Part of an identifier. */
  predicate Joins(c: char) {
    'a' <= c <= 'z' || 'A' <= c <= 'Z' || '0' <= c <= '9' || c == '_' || c == '$'
  }

  /** No identifier ends in front of offset `i`. */
  predicate Free(code: string, i: nat)
    requires i <= |code|
  {
    i == 0 || !Joins(code[i - 1])
  }

  predicate BehindDot(code: string, i: nat)
    requires i <= |code|
  {
    i > 0 && code[i - 1] == '.'
  }

  /** `word`, the white space `gap` and `c` are printed at offset `i`. */
  predicate Printed(code: string, i: nat, word: string, gap: string, c: char) {
    i + |word + gap| < |code| && code[i..i + |word + gap| + 1] == word + gap + [c] && AllSpace(gap)
  }

  /** `return` as a word of its own, behind no `.`. */
  predicate ReturnPrinted(code: string, i: nat) {
    && i + |"return"| <= |code| && code[i..i + |"return"|] == "return" && Free(code, i) && !BehindDot(code, i)
    && (i + |"return"| == |code| || !Joins(code[i + |"return"|]))
  }

  lemma BoundaryIsFree(code: string, i: nat)
    requires i <= |code|
    ensures Boundary(code, i, false) <==> Free(code, i)
    ensures Boundary(code, i, true) <==> Free(code, i) && !BehindDot(code, i)
  {
  }

  lemma PatternIsPrinted(code: string, i: nat, word: string, c: char)
    requires !IsSpace(c)
    ensures WordThen(code, i, word, c) <==> exists gap :: Printed(code, i, word, gap, c)
  {
    if WordThen(code, i, word, c) {
      var j := SkipSpaces(code, i + |word|);
      var gap := code[i + |word|..j];
      assert code[i..j + 1] == code[i..i + |word|] + gap + [code[j]];
      assert Printed(code, i, word, gap, c);
    }
    if gap :| Printed(code, i, word, gap, c) {
      PrintedMatches(code, i, word, gap, c);
    }
  }

  lemma PrintedMatches(code: string, i: nat, word: string, gap: string, c: char)
    requires Printed(code, i, word, gap, c) && !IsSpace(c)
    ensures WordThen(code, i, word, c)
  {
    var j := i + |word + gap|;
    assert At(code, i, word + gap + [c]);
    AtConcat(code, i, word + gap, [c]);
    AtConcat(code, i, word, gap);
    AtOne(code, j, c);
    SkipOver(code, i + |word|, gap);
  }

  /** The parenthesis the one at `opening` is paired with: behind it nothing is open any more, and up to it something is. */
  ghost predicate PairedAt(code: string, opening: nat, closing: nat)
    requires opening < |code|
  {
    && opening < closing <= |code|
    && (forall k :: opening < k <= closing ==> Balance(code[opening..k]) > 0)
    && (closing < |code| ==> code[closing] == ')' && Balance(code[opening..closing + 1]) == 0)
  }

  lemma {:induction false} CloseFrom(code: string, opening: nat, k: nat)
    requires opening < k <= |code| && forall j :: opening < j <= k ==> Balance(code[opening..j]) > 0
    ensures PairedAt(code, opening, Close(code, k, Balance(code[opening..k])))
    decreases |code| - k
  {
    if k < |code| {
      BalanceNext(code, opening, k);
      if Balance(code[opening..k + 1]) > 0 {
        CloseFrom(code, opening, k + 1);
      }
    }
  }

  lemma ClosePairs(code: string, opening: nat)
    requires opening < |code| && code[opening] == '('
    ensures PairedAt(code, opening, Close(code, opening, 0))
  {
    BalanceNext(code, opening, opening);
    assert code[opening..opening] == [];
    CloseFrom(code, opening, opening + 1);
  }

  /** Outside a header the scanner enters one exactly at a `for` or `while` that is a word of its own, behind no `.`, and
      goes with a parenthesis; a loop body in braces is announced by such a `do` in front of a brace. */
  lemma LoopsRecognised(code: string, st: State)
    requires st.index < |code| && st.parens == 0
    ensures var i, next := st.index, Step(code, st);
      && (next.parens > 0 <==>
            && Free(code, i) && !BehindDot(code, i)
            && exists gap :: Printed(code, i, "for", gap, '(') || Printed(code, i, "while", gap, '('))
      && (!st.pending ==>
            (next.pending <==> Free(code, i) && !BehindDot(code, i) && exists gap :: Printed(code, i, "do", gap, '{')))
  {
    var i := st.index;
    BoundaryIsFree(code, i);
    PatternIsPrinted(code, i, "for", '(');
    PatternIsPrinted(code, i, "while", '(');
    PatternIsPrinted(code, i, "do", '{');
    KeywordStarts(code, i);
    hide Boundary, WordThen, Free, BehindDot, Printed;
    Recognised(code, st);
  }

  /** What one step outside a header does, by the patterns. */
  lemma Recognised(code: string, st: State)
    requires st.index < |code| && st.parens == 0
    ensures var next := Step(code, st);
      && (next.parens > 0 <==> LoopHeadAt(code, st.index))
      && (!st.pending ==> (next.pending <==> DoBlockAt(code, st.index)))
      && next.ends == PopEnds(st).ends
           + (if ForEachAt(code, st.index) then [Close(code, Opening(code, st.index), 0)] else [])
  {
    KeywordStarts(code, st.index);
    hide LoopHeadAt, DoBlockAt, ForEachAt, Opening, Close;
    NotBoth(code, st.index);
    assert PopEnds(st).ends + [] == PopEnds(st).ends;
  }

  lemma NotBoth(code: string, i: nat)
    requires i < |code|
    ensures ForEachAt(code, i) ==> !LoopHeadAt(code, i)
  {
    if ForEachAt(code, i) {
      ForEachIsNoHead(code, i);
    }
  }

  /** And a range is pushed exactly at a `forEach` that is a word of its own, behind a `.` or not, and goes with a
      parenthesis: up to the parenthesis paired with that one. */
  lemma ForEachRecognised(code: string, st: State)
    requires st.index < |code| && st.parens == 0
    ensures var i, was, next := st.index, PopEnds(st), Step(code, st);
      && (|next.ends| > |was.ends| <==> Free(code, i) && exists gap :: Printed(code, i, "forEach", gap, '('))
      && (forall gap :: Free(code, i) && Printed(code, i, "forEach", gap, '(') ==>
            && next.depth == was.depth + 1 && next.index == i + |"forEach"| + |gap| + 1
            && exists e :: next.ends == was.ends + [e] && PairedAt(code, next.index - 1, e))
      && (|next.ends| <= |was.ends| ==> next.ends == was.ends)
  {
    hide Step, PopEnds, Printed, WordThen, Boundary, Free, PairedAt, Opening, Close;
    var i := st.index;
    BoundaryIsFree(code, i);
    PatternIsPrinted(code, i, "forEach", '(');
    Recognised(code, st);
    assert |PopEnds(st).ends + [Close(code, i, 0)]| > |PopEnds(st).ends|;
    forall gap | Free(code, i) && Printed(code, i, "forEach", gap, '(')
      ensures var next, was := Step(code, st), PopEnds(st);
        && next.depth == was.depth + 1 && next.index == i + |"forEach"| + |gap| + 1
        && exists e :: next.ends == was.ends + [e] && PairedAt(code, next.index - 1, e)
    {
      ForEachPushes(code, st, gap);
    }
  }

  lemma ForEachPushes(code: string, st: State, gap: string)
    requires st.index < |code| && st.parens == 0 && Free(code, st.index) && Printed(code, st.index, "forEach", gap, '(')
    ensures var next, was, o := Step(code, st), PopEnds(st), st.index + |"forEach"| + |gap|;
      && o < |code| && next.depth == was.depth + 1 && next.index == o + 1
      && next.ends == was.ends + [Close(code, o, 0)] && PairedAt(code, o, Close(code, o, 0))
  {
    hide Step, Free, Printed, PairedAt, Close, Opening, PopEnds, At, AllSpace, ForEachAt, LoopHeadAt, DoBlockAt, JavaTrees.Word;
    PrintedIsWord(code, st.index, gap);
    ForEachOpens(code, st.index, gap);
    ClosePairs(code, Opening(code, st.index));
    StepPushes(code, st);
  }

  lemma ForEachOpens(code: string, i: nat, gap: string)
    requires i < |code| && Free(code, i) && At(code, i, JavaTrees.Word(gap)) && AllSpace(gap)
    ensures ForEachAt(code, i) && !LoopHeadAt(code, i) && !DoBlockAt(code, i) && code[i] == 'f'
    ensures Opening(code, i) == i + 7 + |gap|
  {
    hide LoopHeadAt, DoBlockAt, ForEachAt, WordThen, Opening, At, AllSpace, JavaTrees.Word;
    BoundaryIsFree(code, i);
    ForEachPrinted(code, i, gap);
  }

  lemma PrintedIsWord(code: string, i: nat, gap: string)
    requires Printed(code, i, "forEach", gap, '(')
    ensures At(code, i, JavaTrees.Word(gap)) && AllSpace(gap)
    ensures var o := i + 7 + |gap|; o < |code| && code[o] == '('
  {
    var o := i + 7 + |gap|;
    assert code[o] == code[i..o + 1][o - i];
  }

  lemma StepPushes(code: string, st: State)
    requires st.index < |code| && st.parens == 0 && code[st.index] == 'f'
    requires ForEachAt(code, st.index) && !LoopHeadAt(code, st.index) && !DoBlockAt(code, st.index)
    ensures var next, was, o := Step(code, st), PopEnds(st), Opening(code, st.index);
      next.depth == was.depth + 1 && next.index == o + 1 && next.ends == was.ends + [Close(code, o, 0)]
  {
    hide LoopHeadAt, DoBlockAt, ForEachAt, Opening, Close;
  }
}
