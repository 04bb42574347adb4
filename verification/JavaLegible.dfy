// Trees written so plainly that wherever their text stands it reads as what it is; examples are of this kind.
module JavaLegible {
  import opened Strings
  import opened JavaLoops
  import opened JavaTrees
  import opened JavaScan

  /** A character no keyword starts with, and that the scanner only walks past. */
  predicate Ordinary(c: char) {
    && c != '{' && c != '}' && c != ';' && c != 'f' && c != 'w' && c != 'd' && c != 'i' && c != 'e' && c != 't' && c != 'c'
    && c != 's'
  }

  /** A character a keyword may stand behind, or in front of. */
  predicate Apart(c: char) {
    !(IsWord(c) || c == '$' || c == '.')
  }

  predicate StartsApart(s: string) {
    s != "" && Apart(s[0])
  }

  /** The last character of `s`, or `c` when there is none. */
  function Ending(s: string, c: char): char {
    if s == "" then c else s[|s| - 1]
  }

  predicate StartsSolid(s: string) {
    s != "" && s[0] != '{' && !IsSpace(s[0])
  }

  predicate AllOrdinary(s: string) {
    forall k :: 0 <= k < |s| ==> Ordinary(s[k])
  }

  ghost predicate LegibleHead(kw: string, gap: string, header: Java)
    decreases header, 2
  {
    (kw == "for" || kw == "while") && gap == "" && Balanced(Show(header)) && Legible(header, '(')
  }

  /** No white space but in plain text, no keyword but where the tree has one and nothing runs into it; `before` is the
      character in front of the tree. */
  ghost predicate Legible(t: Java, before: char)
    decreases t, 1
  {
    t.End? || (FirstLegible(t, before) && Legible(t.rest, Ending(First(t), before)))
  }

  ghost predicate FirstLegible(t: Java, before: char)
    requires !t.End?
    decreases t, 0
  {
    match t
    case Text(s, _) => AllOrdinary(s)
    case Semi(_) => true
    case Block(body, _) => Legible(body, '{')
    case Loop(kw, gap, header, space, body, _) =>
      Apart(before) && LegibleHead(kw, gap, header) && space == "" && Legible(body, '{')
    case Brief(kw, gap, header, space, body, _) =>
      Apart(before) && LegibleHead(kw, gap, header) && space == "" && StartsSolid(Show(body)) && Legible(body, ')')
    case Do(braced, space, body, tail, _) =>
      && Apart(before) && space == "" && (if braced then Legible(body, '{') else body.Semi? && body.rest.End?)
      && tail.mid == "\n" && LegibleHead("while", tail.gap, tail.header) && tail.space == ""
    case ForEach(gap, args, _) =>
      (Apart(before) || before == '.') && gap == "" && Balanced(Show(args)) && Legible(args, '(')
    case Clause(lead, word, head, body, _) =>
      && AllSpace(lead) && (Apart(before) || lead != "") && StartsApart(Show(head))
      && Legible(head, word[|word| - 1]) && Legible(body, Ending(Show(head), ' '))
  }

  /** What stands in front of offset `i`. */
  predicate Behind(code: string, i: nat, before: char) {
    if i == 0 then Apart(before) else i <= |code| && code[i - 1] == before
  }

  lemma NoClause(code: string, k: nat)
    requires k < |code| && Ordinary(code[k])
    ensures !ClauseAt(code, k)
  {
    forall word | At(code, k, word) && word != []
      ensures code[k] == word[0]
    {
      AtIndex(code, k, word, 0);
    }
  }

  lemma PlainText(code: string, i: nat, s: string)
    requires At(code, i, s) && AllOrdinary(s)
    ensures AllQuiet(code, i, i + |s|) && forall k :: i <= k < i + |s| ==> !ClauseAt(code, k)
  {
    hide ClauseAt, LoopHeadAt, DoBlockAt, ForEachAt;
    forall k | i <= k < i + |s|
      ensures Quiet(code, k) && !ClauseAt(code, k)
    {
      AtIndex(code, i, s, k - i);
      KeywordStarts(code, k);
      NoClause(code, k);
    }
  }

  /** The first piece and what follows it. */
  lemma Split(t: Java, code: string, i: nat)
    requires !t.End? && At(code, i, Show(t))
    ensures At(code, i, First(t)) && At(code, i + |First(t)|, Show(t.rest))
  {
    hide At, First;
    AtConcat(code, i, First(t), Show(t.rest));
  }

  lemma BoundaryBehind(code: string, i: nat, before: char)
    requires Behind(code, i, before)
    ensures Apart(before) ==> Boundary(code, i, true) && Boundary(code, i, false)
    ensures before == '.' ==> Boundary(code, i, false)
  {
  }

  /** Behind a piece stands its last character. */
  lemma BehindPiece(code: string, i: nat, s: string, before: char)
    requires At(code, i, s) && Behind(code, i, before)
    ensures Behind(code, i + |s|, Ending(s, before))
  {
    if s != "" {
      AtIndex(code, i, s, |s| - 1);
    }
  }

  lemma HeadReads(kw: string, gap: string, header: Java, code: string, i: nat)
    requires LegibleHead(kw, gap, header) && At(code, i, Head(kw, gap, Show(header))) && Boundary(code, i, true)
    ensures HeaderFits(header, code, i, kw, gap)
    decreases header, 3
  {
    hide At, Show, FitsAt, Balanced, Boundary;
    var open := Opens(kw, gap);
    assert Head(kw, gap, Show(header)) == open + (Show(header) + ")");
    AtConcat(code, i, open, Show(header) + ")");
    AtConcat(code, i + |open|, Show(header), ")");
    AtIndex(code, i, open, |open| - 1);
    ReadsAt(header, code, i + |open|, '(');
  }

  lemma BodyReads(body: Java, code: string, i: nat)
    requires Legible(body, '{') && At(code, i, Braced("", body))
    ensures FitsAt(body, code, i + 1)
    decreases body, 3
  {
    hide At, Show, FitsAt, Boundary;
    BracedPieces(code, i, "", body);
    ReadsAt(body, code, i + 1, '{');
  }

  lemma LoopReads(t: Java, code: string, i: nat)
    requires t.Loop? && FirstLegible(t, ' ') && At(code, i, First(t)) && Boundary(code, i, true)
    ensures FirstFits(t, code, i)
    decreases t, 0
  {
    hide At, Show, FitsAt, Boundary, Head, Braced, HeaderFits;
    var head := Head(t.kw, t.gap, Show(t.header));
    AtConcat(code, i, head, Braced("", t.body));
    HeadReads(t.kw, t.gap, t.header, code, i);
    BodyReads(t.body, code, i + |head|);
  }

  lemma BriefReads(t: Java, code: string, i: nat)
    requires t.Brief? && FirstLegible(t, ' ') && At(code, i, First(t)) && Boundary(code, i, true)
    ensures FirstFits(t, code, i)
    decreases t, 0
  {
    hide At, Show, FitsAt, Boundary, Head, HeaderFits;
    var head := Head(t.kw, t.gap, Show(t.header));
    AtConcat(code, i, head, "" + Show(t.body));
    AtConcat(code, i + |head|, "", Show(t.body));
    AtIndex(code, i + |head|, Show(t.body), 0);
    HeadReads(t.kw, t.gap, t.header, code, i);
    HeadCloses(code, i, t.kw, t.gap, Show(t.header));
    ReadsAt(t.body, code, i + |head|, ')');
  }

  lemma HeadCloses(code: string, i: nat, kw: string, gap: string, header: string)
    requires At(code, i, Head(kw, gap, header))
    ensures var j := i + |Head(kw, gap, header)|; 0 < j <= |code| && code[j - 1] == ')'
  {
    var head := Head(kw, gap, header);
    AtIndex(code, i, head, |head| - 1);
  }

  lemma TailReads(tail: Tail, code: string, i: nat)
    requires At(code, i, ShowTail(tail)) && tail.mid == "\n" && tail.space == ""
    requires LegibleHead("while", tail.gap, tail.header)
    ensures TailFits(tail, code, i)
    decreases tail, 4
  {
    hide At, Show, Head, HeaderFits, Boundary;
    var head := Head("while", tail.gap, Show(tail.header));
    AtConcat(code, i, "\n", head + ("" + ";"));
    AtConcat(code, i + 1, head, "" + ";");
    AtIndex(code, i, "\n", 0);
    BoundaryBehind(code, i + 1, '\n');
    HeadReads("while", tail.gap, tail.header, code, i + 1);
  }

  lemma DoReads(t: Java, code: string, i: nat)
    requires t.Do? && FirstLegible(t, ' ') && At(code, i, First(t)) && Boundary(code, i, true)
    ensures FirstFits(t, code, i)
    decreases t, 0
  {
    hide At, Show, FitsAt, Boundary, TailFits, ShowTail, LegibleHead, AllQuiet, WordAt, BodyOf, Legible, FirstLegible, FirstFits,
      First, Braced;
    DoParts(t, code, i);
    DoSays(t);
    TailReads(t.tail, code, i + 2 + |BodyOf(t)|);
    if t.braced {
      BodyReads(t.body, code, i + 2);
    } else {
      BareBody(t.body);
      ReadsAt(t.body, code, i + 2, 'o');
    }
    DoFits(t, code, i);
  }

  /** What it takes for a `do` to be plain. */
  lemma DoSays(t: Java)
    requires t.Do? && FirstLegible(t, ' ')
    ensures LegibleHead("while", t.tail.gap, t.tail.header) && t.tail.mid == "\n" && t.tail.space == "" && t.space == ""
    ensures if t.braced then Legible(t.body, '{') && BodyOf(t) == Braced("", t.body) else t.body.Semi? && t.body.rest.End?
  {
  }

  lemma DoFits(t: Java, code: string, i: nat)
    requires t.Do? && t.space == "" && i + 2 < |code| && WordAt(code, i, "do")
    requires !t.braced ==> code[i + 2] == ';' && AllQuiet(code, i, i + 2)
    requires FitsAt(t.body, code, if t.braced then i + 3 else i + 2) && TailFits(t.tail, code, i + 2 + |BodyOf(t)|)
    ensures FirstFits(t, code, i)
  {
    hide FitsAt, TailFits, WordAt, AllQuiet, BodyOf;
  }

  lemma DoCuts(code: string, i: nat, body: string, tail: string)
    requires At(code, i, "do" + (body + tail)) && body != ""
    ensures At(code, i, "do") && At(code, i + 2, body) && At(code, i + 2 + |body|, tail)
    ensures i + 2 < |code| && code[i + 1] == 'o' && code[i + 2] == body[0]
  {
    AtConcat(code, i, "do", body + tail);
    AtConcat(code, i + 2, body, tail);
    AtIndex(code, i, "do", 1);
    AtIndex(code, i + 2, body, 0);
  }

  /** Where the parts of a `do` stand. */
  lemma DoParts(t: Java, code: string, i: nat)
    requires t.Do? && FirstLegible(t, ' ') && At(code, i, First(t)) && Boundary(code, i, true)
    ensures At(code, i + 2, BodyOf(t)) && At(code, i + 2 + |BodyOf(t)|, ShowTail(t.tail))
    ensures i + 2 < |code| && code[i + 1] == 'o' && WordAt(code, i, "do")
    ensures !t.braced ==> AllQuiet(code, i, i + 2) && code[i + 2] == ';' && BodyOf(t) == Show(t.body)
  {
    hide BodyOf, ShowTail, First, Show, At, Boundary, Legible, FirstLegible, WordAt, AllQuiet, Apart;
    DoBody(t);
    DoShows(t);
    DoCuts(code, i, BodyOf(t), ShowTail(t.tail));
    DoWord(code, i);
  }

  lemma DoShows(t: Java)
    requires t.Do?
    ensures First(t) == "do" + (BodyOf(t) + ShowTail(t.tail))
  {
    hide ShowTail;
  }

  lemma DoBody(t: Java)
    requires t.Do? && FirstLegible(t, ' ')
    ensures BodyOf(t) != "" && Apart(BodyOf(t)[0])
    ensures !t.braced ==> BodyOf(t) == ";" == Show(t.body)
  {
    if t.braced {
      assert BodyOf(t)[0] == '{';
    } else {
      BareBody(t.body);
      assert t.space == "" && t.space + Show(t.body) == Show(t.body);
    }
  }

  lemma BareBody(body: Java)
    requires body.Semi? && body.rest.End?
    ensures Show(body) == ";" && Legible(body, 'o')
  {
  }

  lemma DoWord(code: string, i: nat)
    requires At(code, i, "do") && Boundary(code, i, true) && i + 2 < |code| && Apart(code[i + 2])
    ensures WordAt(code, i, "do")
    ensures code[i + 2] == ';' ==> AllQuiet(code, i, i + 2)
  {
    hide AllQuiet;
    if code[i + 2] == ';' {
      DoQuiet(code, i);
    }
  }

  lemma DoQuiet(code: string, i: nat)
    requires At(code, i, "do") && i + 2 < |code| && code[i + 2] == ';'
    ensures AllQuiet(code, i, i + 2)
  {
    AtIndex(code, i, "do", 0);
    AtIndex(code, i, "do", 1);
    KeywordStarts(code, i);
    KeywordStarts(code, i + 1);
  }

  lemma ForEachReads(t: Java, code: string, i: nat)
    requires t.ForEach? && FirstLegible(t, ' ') && At(code, i, First(t)) && Boundary(code, i, false)
    ensures FirstFits(t, code, i)
    decreases t, 0
  {
    hide At, Show, FitsAt, Boundary, Balanced;
    var word := Word(t.gap);
    AtConcat(code, i, word, Show(t.args) + ")");
    AtConcat(code, i + |word|, Show(t.args), ")");
    AtIndex(code, i, word, |word| - 1);
    ReadsAt(t.args, code, i + |word|, '(');
  }

  lemma ClauseReads(t: Java, code: string, i: nat, before: char)
    requires t.Clause? && FirstLegible(t, before) && At(code, i, First(t)) && Behind(code, i, before)
    ensures FirstFits(t, code, i)
    decreases t, 0
  {
    hide At, Show, FitsAt, Boundary, StartsClause, Quiet;
    var j, k := i + |t.lead|, i + |t.lead + t.word|;
    AtConcat(code, i, t.lead + t.word, Show(t.head) + Show(t.body));
    AtConcat(code, i, t.lead, t.word);
    AtConcat(code, k, Show(t.head), Show(t.body));
    assert StartsApart(Show(t.head));
    AtIndex(code, k, Show(t.head), 0);
    AtIndex(code, k, Show(t.head), |Show(t.head)| - 1);
    WordIsSome(t.word);
    AtIndex(code, j, t.word, |t.word| - 1);
    ClauseBoundary(code, i, t.lead, before);
    ClauseWordAt(code, j, t.word);
    SpaceQuiet(code, i, t.lead);
    ReadsAt(t.head, code, k, t.word[|t.word| - 1]);
    ReadsAt(t.body, code, k + |Show(t.head)|, Ending(Show(t.head), ' '));
  }

  lemma WordIsSome(word: ClauseWord)
    ensures word != ""
  {
  }

  lemma ClauseBoundary(code: string, i: nat, lead: string, before: char)
    requires At(code, i, lead) && AllSpace(lead) && (Apart(before) || lead != "") && Behind(code, i, before)
    ensures Boundary(code, i + |lead|, true)
  {
    BehindPiece(code, i, lead, before);
    BoundaryBehind(code, i + |lead|, Ending(lead, before));
  }

  lemma SpaceQuiet(code: string, i: nat, s: string)
    requires At(code, i, s) && AllSpace(s)
    ensures AllQuiet(code, i, i + |s|)
  {
    hide LoopHeadAt, DoBlockAt, ForEachAt;
    forall k | i <= k < i + |s|
      ensures Quiet(code, k)
    {
      AtIndex(code, i, s, k - i);
      KeywordStarts(code, k);
    }
  }

  /** A word no loop starts with. */
  lemma ClauseWordAt(code: string, i: nat, word: ClauseWord)
    requires At(code, i, word) && Boundary(code, i, true) && i + |word| < |code| && Apart(code[i + |word|])
    ensures WordAt(code, i, word) && AllQuiet(code, i, i + |word|)
  {
    hide LoopHeadAt, DoBlockAt, ForEachAt;
    forall k | i <= k < i + |word|
      ensures Quiet(code, k)
    {
      AtIndex(code, i, word, k - i);
      if k > i {
        AtIndex(code, i, word, k - 1 - i);
        InWord(code, k);
      } else {
        WordStart(code, i, word);
      }
    }
  }

  lemma InWord(code: string, k: nat)
    requires 0 < k < |code| && IsWord(code[k - 1]) && code[k] !in "{};"
    ensures Quiet(code, k)
  {
    hide WordThen;
  }

  lemma WordStart(code: string, i: nat, word: ClauseWord)
    requires At(code, i, word)
    ensures Quiet(code, i)
  {
    hide LoopHeadAt, DoBlockAt, ForEachAt;
    AtIndex(code, i, word, 0);
    KeywordStarts(code, i);
    if word == "finally" {
      AtIndex(code, i, "finally", 1);
      NotFor(code, i);
    }
  }

  lemma NotFor(code: string, i: nat)
    requires i + 1 < |code| && code[i] == 'f' && code[i + 1] != 'o'
    ensures !LoopHeadAt(code, i) && !ForEachAt(code, i)
  {
    hide SkipSpaces;
    assert forall word :: At(code, i, word) && |word| > 1 ==> code[i + 1] == word[1] && code[i] == word[0];
  }

  lemma FirstReads(t: Java, code: string, i: nat, before: char)
    requires !t.End? && FirstLegible(t, before) && At(code, i, First(t)) && Behind(code, i, before)
    ensures FirstFits(t, code, i)
    decreases t, 1
  {
    hide At, Show, FitsAt, Boundary, LegibleHead, StartsClause, Behind;
    BoundaryBehind(code, i, before);
    match t
    case Text(s, _) => PlainText(code, i, s);
    case Semi(_) =>
    case Block(body, _) => BodyReads(body, code, i);
    case Loop(_, _, _, _, _, _) => LoopReads(t, code, i);
    case Brief(_, _, _, _, _, _) => BriefReads(t, code, i);
    case Do(_, _, _, _, _) => DoReads(t, code, i);
    case ForEach(_, _, _) => ForEachReads(t, code, i);
    case Clause(_, _, _, _, _) => ClauseReads(t, code, i, before);
  }

  /** So it does wherever nothing runs into what starts it. */
  lemma {:induction false} ReadsAt(t: Java, code: string, i: nat, before: char)
    requires Legible(t, before) && At(code, i, Show(t)) && Behind(code, i, before)
    ensures FitsAt(t, code, i)
    decreases t, 2
  {
    hide At, First, FirstFits, FirstLegible, Behind, Ending;
    if !t.End? {
      Split(t, code, i);
      FirstReads(t, code, i, before);
      BehindPiece(code, i, First(t), before);
      ReadsAt(t.rest, code, i + |First(t)|, Ending(First(t), before));
    }
  }
}
