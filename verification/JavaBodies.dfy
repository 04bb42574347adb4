// When the loop scanner is right: what it takes for loop bodies against what they are.
module JavaBodies {
  // `JavaScan` shows that scanning is reading. Here the reader is compared with the truth, `JavaTrees.Marks`: for a whole
  // file, character by character and line by line, and for each construct the reader may be wrong about.

  import opened Strings
  import opened JavaLoops
  import opened JavaTrees
  import opened JavaSemis
  import opened JavaScan

  // --- the truth, as the scanner would have it at best ---

  /** One character as the scanner takes it where nothing is misread: the end of a `do` counts as a loop body, and
      nothing in a loop header does. */
  function Take(m: Mark): Mark {
    Mark(m.c, match m.place case Plain => m.inBody case DoEnd => true case InHeader => false, Plain)
  }

  function Taken(m: seq<Mark>): seq<Mark> {
    seq(|m|, i requires 0 <= i < |m| => Take(m[i]))
  }

  lemma TakenConcat(a: seq<Mark>, b: seq<Mark>)
    ensures Taken(a + b) == Taken(a) + Taken(b)
  {
  }

  lemma TakenTag(s: string, inBody: bool)
    ensures Taken(Tag(s, inBody)) == Tag(s, inBody) && Taken(TagTail(s, inBody)) == Tag(s, true)
  {
  }

  /** The same characters, taken for loop bodies alike wherever they are no white space. */
  ghost predicate Same(a: seq<Mark>, b: seq<Mark>) {
    && |a| == |b|
    && forall i :: 0 <= i < |a| ==> a[i].c == b[i].c && (IsSpace(a[i].c) || a[i].inBody == b[i].inBody)
  }

  lemma SameTwo(a: seq<Mark>, b: seq<Mark>, c: seq<Mark>, d: seq<Mark>)
    requires |a| == |c|
    ensures Same(a + b, c + d) <==> Same(a, c) && Same(b, d)
  {
    if Same(a + b, c + d) {
      forall i | 0 <= i < |a|
        ensures a[i].c == c[i].c && (IsSpace(a[i].c) || a[i].inBody == c[i].inBody)
      {
        assert (a + b)[i] == a[i] && (c + d)[i] == c[i];
      }
      forall i | 0 <= i < |b|
        ensures b[i].c == d[i].c && (IsSpace(b[i].c) || b[i].inBody == d[i].inBody)
      {
        assert (a + b)[|a| + i] == b[i] && (c + d)[|a| + i] == d[i];
      }
    }
  }

  lemma SameChars(a: seq<Mark>, b: seq<Mark>)
    requires Chars(a) == Chars(b)
    ensures |a| == |b| && forall i :: 0 <= i < |a| ==> a[i].c == b[i].c
  {
    assert |Chars(a)| == |a| && |Chars(b)| == |b|;
    forall i | 0 <= i < |a|
      ensures a[i].c == b[i].c
    {
      assert Chars(a)[i] == Chars(b)[i];
    }
  }

  lemma SameIn(a: seq<Mark>, b: seq<Mark>)
    requires Chars(a) == Chars(b) && AllIn(b)
    ensures Same(a, b) <==> AllIn(a)
  {
    SameChars(a, b);
  }

  lemma SameTags(s: string, a: bool, b: bool)
    ensures Same(Tag(s, a), Tag(s, b)) <==> a == b || AllSpace(s)
  {
    if Same(Tag(s, a), Tag(s, b)) && a != b {
      forall i | 0 <= i < |s|
        ensures IsSpace(s[i])
      {
        assert Tag(s, a)[i].c == s[i];
      }
    }
  }

  lemma SameTaken(s: string, a: bool, b: bool)
    ensures Same(Tag(s, a), Taken(Tag(s, b))) <==> a == b || AllSpace(s)
  {
    TakenTag(s, b);
    SameTags(s, a, b);
  }

  lemma SameWalk(s: string, h: Held, r: Reading, m: seq<Mark>)
    ensures Same(Along(Walk(s, h), r).marks, Taken(Tag(s, h.depth > 0) + m)) <==> Same(r.marks, Taken(m))
  {
    hide Same, Taken, Tag;
    TagLength(s, h.depth > 0);
    TakenTag(s, h.depth > 0);
    TakenConcat(Tag(s, h.depth > 0), m);
    SameTags(s, h.depth > 0, h.depth > 0);
    SameTwo(Tag(s, h.depth > 0), r.marks, Tag(s, h.depth > 0), Taken(m));
  }

  lemma SameAlong(a: Reading, b: Reading, m: seq<Mark>, n: seq<Mark>)
    requires |a.marks| == |m|
    ensures Same(Along(a, b).marks, Taken(m + n)) <==> Same(a.marks, Taken(m)) && Same(b.marks, Taken(n))
  {
    TakenConcat(m, n);
    SameTwo(a.marks, b.marks, Taken(m), Taken(n));
  }

  lemma Lengths(t: Java, level: nat, h: Held, inBody: bool)
    ensures |Read(t, level, h).marks| == |Marks(t, inBody)|
    ensures !t.End? ==> |ReadFirst(t, level, h).marks| == |FirstMarks(t, inBody)|
  {
    hide Read, Marks, ReadFirst, FirstMarks, Show, First;
    ReadLength(t, level, h);
    MarksShow(t, inBody);
    assert |Chars(Marks(t, inBody))| == |Marks(t, inBody)|;
    if !t.End? {
      FirstMarksShow(t, inBody);
      assert |Chars(FirstMarks(t, inBody))| == |FirstMarks(t, inBody)|;
    }
  }

  // --- in a loop body everything is, and is taken for one ---

  ghost predicate Inside(m: seq<Mark>) {
    forall i :: 0 <= i < |m| ==> m[i].inBody && !m[i].place.InHeader?
  }

  lemma InsideConcat(a: seq<Mark>, b: seq<Mark>)
    requires Inside(a) && Inside(b)
    ensures Inside(a + b)
  {
  }

  lemma InsideTag(s: string)
    ensures Inside(Tag(s, true)) && Inside(TagTail(s, true))
  {
  }

  lemma InsideIsIn(m: seq<Mark>)
    requires Inside(m)
    ensures AllIn(m) && AllIn(Taken(m)) && Chars(Taken(m)) == Chars(m)
  {
  }

  lemma BracedInside(space: string, body: Java)
    ensures Inside(BracedMarks(space, body, true, true))
    decreases body, 3
  {
    hide Tag, Inside, Marks;
    MarksInside(body);
    InsideTag(space);
    InsideTag("{");
    InsideTag("}");
    InsideConcat(Marks(body, true), Tag("}", true));
    InsideConcat(Tag("{", true), Marks(body, true) + Tag("}", true));
    InsideConcat(Tag(space, true), Tag("{", true) + (Marks(body, true) + Tag("}", true)));
  }

  lemma HeadInside(kw: string, gap: string, header: Java)
    ensures Inside(HeadMarks(kw, gap, header, true))
    decreases header, 3
  {
    hide Tag, Inside, Marks;
    MarksInside(header);
    InsideTag(Opens(kw, gap));
    InsideTag(")");
    InsideConcat(Marks(header, true), Tag(")", true));
    InsideConcat(Tag(Opens(kw, gap), true), Marks(header, true) + Tag(")", true));
  }

  lemma BareInside(space: string, body: Java)
    ensures Inside(Tag(space, true) + Marks(body, true))
    decreases body, 3
  {
    hide Tag, Inside, Marks;
    MarksInside(body);
    InsideTag(space);
    InsideConcat(Tag(space, true), Marks(body, true));
  }

  lemma TailInside(tail: Tail)
    ensures Inside(TailMarks(tail, true))
    decreases tail, 4
  {
    hide Tag, TagTail, Inside, HeadMarks;
    var head := HeadMarks("while", tail.gap, tail.header, true);
    HeadInside("while", tail.gap, tail.header);
    InsideTag(tail.mid);
    InsideTag(tail.space + ";");
    InsideConcat(head, TagTail(tail.space + ";", true));
    InsideConcat(Tag(tail.mid, true), head + TagTail(tail.space + ";", true));
  }

  lemma FirstInside(t: Java)
    requires !t.End?
    ensures Inside(FirstMarks(t, true))
    decreases t, 0
  {
    hide Tag, Inside, Marks, BracedMarks, TailMarks, HeadMarks, StartsClause;
    match t
    case Text(s, _) => InsideTag(s);
    case Semi(_) => InsideTag(";");
    case Block(body, _) => BracedInside("", body);
    case Loop(kw, gap, header, space, body, _) =>
      HeadInside(kw, gap, header);
      BracedInside(space, body);
      InsideConcat(HeadMarks(kw, gap, header, true), BracedMarks(space, body, true, true));
    case Brief(kw, gap, header, space, body, _) =>
      HeadInside(kw, gap, header);
      BareInside(space, body);
      InsideConcat(HeadMarks(kw, gap, header, true), Tag(space, true) + Marks(body, true));
    case Do(braced, space, body, tail, _) =>
      var m := if braced then BracedMarks(space, body, true, true) else Tag(space, true) + Marks(body, true);
      BracedInside(space, body);
      BareInside(space, body);
      TailInside(tail);
      InsideTag("do");
      InsideConcat(m, TailMarks(tail, true));
      InsideConcat(Tag("do", true), m + TailMarks(tail, true));
    case ForEach(gap, args, _) =>
      MarksInside(args);
      InsideTag(Word(gap));
      InsideTag(")");
      InsideConcat(Marks(args, true), Tag(")", true));
      InsideConcat(Tag(Word(gap), true), Marks(args, true) + Tag(")", true));
    case Clause(lead, word, head, body, _) =>
      MarksInside(head);
      MarksInside(body);
      InsideTag(lead + word);
      InsideConcat(Marks(head, true), Marks(body, true));
      InsideConcat(Tag(lead + word, true), Marks(head, true) + Marks(body, true));
  }

  lemma {:induction false} MarksInside(t: Java)
    ensures Inside(Marks(t, true))
    decreases t, 1
  {
    hide FirstMarks;
    if !t.End? {
      FirstInside(t);
      MarksInside(t.rest);
      InsideConcat(FirstMarks(t, true), Marks(t.rest, true));
    }
  }

  /** In a loop body the reader is right. */
  lemma ReadDeep(t: Java, level: nat, h: Held)
    requires Right(t, true) && Closed(h, level) && h.depth > 0
    ensures Same(Read(t, level, h).marks, Taken(Marks(t, true))) && Read(t, level, h).held == h
  {
    hide Same, AllIn, Chars, Read, Marks, Taken, Right, Open, Inside, SemisOf, Covers;
    OpenMore(h, level, 0);
    ReadHeld(t, level, h, 0);
    AllInIff(t, level, h, 0);
    MarksInside(t);
    InsideIsIn(Marks(t, true));
    ReadShow(t, level, h);
    MarksShow(t, true);
    SameIn(Read(t, level, h).marks, Taken(Marks(t, true)));
  }

  // --- loop headers ---

  /** No character of a header, itself in no loop, stands in the body of a loop. */
  ghost predicate Bodiless(header: Java) {
    forall i :: 0 <= i < |Marks(header, false)| && Marks(header, false)[i].inBody ==> IsSpace(Marks(header, false)[i].c)
  }

  lemma HeadInThree(kw: string, gap: string, header: string, inBody: bool)
    ensures Tag(Head(kw, gap, header), inBody) == Tag(Opens(kw, gap), inBody) + (Tag(header, inBody) + Tag(")", inBody))
  {
  }

  lemma PlacedTaken(m: seq<Mark>)
    ensures Taken(Placed(m, InHeader)) == Tag(Chars(m), false)
  {
  }

  /** At best nothing in a header is taken for a body, unless the loop stands in another. */
  lemma SameHead(kw: string, gap: string, header: Java, h: Held)
    ensures Same(Walk(Head(kw, gap, Show(header)), h).marks, Taken(HeadMarks(kw, gap, header, h.depth > 0)))
  {
    hide Same, Taken, Tag, Marks, Placed, Show, AllIn, Chars, Inside, HeadMarks, Head, AllSpace;
    var head := Head(kw, gap, Show(header));
    HeadMarksShow(kw, gap, header, h.depth > 0);
    if h.depth > 0 {
      HeadInside(kw, gap, header);
      InsideIsIn(HeadMarks(kw, gap, header, true));
      CharsTag(head, true);
      AllInTag(head, true);
      SameIn(Tag(head, true), Taken(HeadMarks(kw, gap, header, true)));
    } else {
      HeadTaken(kw, gap, header);
      SameTags(head, false, false);
    }
  }

  lemma HeadTaken(kw: string, gap: string, header: Java)
    ensures Taken(HeadMarks(kw, gap, header, false)) == Tag(Head(kw, gap, Show(header)), false)
  {
    hide Taken, Tag, Marks, Placed, Show, Head, Chars;
    var m := Placed(Marks(header, false), InHeader);
    MarksShow(header, false);
    PlacedTaken(Marks(header, false));
    TakenTag(Opens(kw, gap), false);
    TakenTag(")", false);
    TakenConcat(m, Tag(")", false));
    TakenConcat(Tag(Opens(kw, gap), false), m + Tag(")", false));
    HeadInThree(kw, gap, Show(header), false);
  }

  lemma SamePlaced(header: Java)
    ensures Same(Tag(Show(header), false), Placed(Marks(header, false), InHeader)) <==> Bodiless(header)
  {
    hide Show, Marks;
    var m := Marks(header, false);
    MarksShow(header, false);
    CharsTag(Show(header), false);
    CharsPlaced(m, InHeader);
    SameChars(Tag(Show(header), false), Placed(m, InHeader));
    assert forall i :: 0 <= i < |m| ==> Placed(m, InHeader)[i].inBody == m[i].inBody && Placed(m, InHeader)[i].c == m[i].c;
    if Same(Tag(Show(header), false), Placed(m, InHeader)) {
      forall i | 0 <= i < |m| && m[i].inBody
        ensures IsSpace(m[i].c)
      {
        assert Tag(Show(header), false)[i].inBody == false;
      }
    }
  }

  /** The reader is right about a loop header if and only if the loop stands in another one or no character of the header
      stands in the body of a loop. */
  lemma HeaderRightIff(kw: string, gap: string, header: Java, h: Held)
    ensures Same(Walk(Head(kw, gap, Show(header)), h).marks, HeadMarks(kw, gap, header, h.depth > 0))
        <==> h.depth > 0 || Bodiless(header)
  {
    hide Same, Tag, Marks, Placed, Show, AllIn, Chars, Inside, Head, Bodiless, AllSpace, Opens;
    var open, text := Opens(kw, gap), Show(header);
    if h.depth > 0 {
      HeadInside(kw, gap, header);
      InsideIsIn(HeadMarks(kw, gap, header, true));
      HeadMarksShow(kw, gap, header, true);
      CharsTag(Head(kw, gap, text), true);
      AllInTag(Head(kw, gap, text), true);
      SameIn(Tag(Head(kw, gap, text), true), HeadMarks(kw, gap, header, true));
    } else {
      var m := Placed(Marks(header, false), InHeader);
      HeadInThree(kw, gap, text, false);
      SameTags(open, false, false);
      SameTags(")", false, false);
      SamePlaced(header);
      PlacedLength(header);
      TagLength(text, false);
      SameTwo(Tag(text, false), Tag(")", false), m, Tag(")", false));
      SameTwo(Tag(open, false), Tag(text, false) + Tag(")", false), Tag(open, false), m + Tag(")", false));
    }
  }

  lemma PlacedLength(header: Java)
    ensures |Placed(Marks(header, false), InHeader)| == |Show(header)|
  {
    MarksShow(header, false);
    assert |Chars(Marks(header, false))| == |Marks(header, false)|;
  }

  // --- outside every loop: the reader is right if and only if the tree is ---

  /** Within each outermost loop every loop without braces is closed by its body. */
  predicate Settled(t: Java) {
    match t
    case End => true
    case Text(_, rest) => Settled(rest)
    case Semi(rest) => Settled(rest)
    case Block(body, rest) => Settled(body) && Settled(rest)
    case Loop(_, _, _, _, body, rest) => Right(body, true) && Settled(rest)
    case Brief(_, _, _, _, body, rest) => Right(body, true) && Settled(rest)
    case Do(braced, _, body, _, rest) => Right(body, true) && (braced || !SemisOf(body).blank) && Settled(rest)
    case ForEach(_, args, rest) => Right(args, true) && Settled(rest)
    case Clause(_, _, head, body, rest) => Settled(head) && Settled(body) && Settled(rest)
  }

  lemma {:induction false} RightSettles(t: Java)
    requires Right(t, false)
    ensures Settled(t)
  {
    hide SemisOf, Covers;
    match t
    case End =>
    case Block(body, rest) => RightSettles(body); RightSettles(rest);
    case Clause(_, _, head, body, rest) => RightSettles(head); RightSettles(body); RightSettles(rest);
    case _ => RightSettles(t.rest);
  }

  lemma SettledParts(t: Java)
    requires !t.End? && Settled(t)
    ensures Settled(t.rest)
    ensures t.Block? ==> Settled(t.body)
    ensures t.Loop? || t.Brief? || t.Do? ==> Right(t.body, true)
    ensures t.Do? ==> t.braced || !SemisOf(t.body).blank
    ensures t.ForEach? ==> Right(t.args, true)
    ensures t.Clause? ==> Settled(t.head) && Settled(t.body)
  {
    hide SemisOf, Right;
  }

  /** What `Right` asks of the first piece, standing in no loop, of a settled tree. */
  predicate FirstRight(t: Java)
    requires !t.End?
  {
    match t
    case Block(body, _) => Right(body, false)
    case Brief(_, _, _, _, body, _) => SemisOf(body).own >= 1 && Covers(SemisOf(body), 1)
    case Do(braced, _, _, _, _) => braced
    case Clause(_, _, head, body, _) => Right(head, false) && Right(body, false)
    case _ => true
  }

  lemma RightSplits(t: Java)
    requires !t.End? && Settled(t)
    ensures Right(t, false) <==> FirstRight(t) && Right(t.rest, false)
  {
    hide SemisOf, Covers;
  }

  /** `g` holds what `h` does and, it may be, more loops open on top. */
  predicate Over(g: Held, h: Held) {
    h.braceless <= g.braceless && g.depth - h.depth == |g.braceless| - |h.braceless|
  }

  lemma OverSteps(g: Held, h: Held, level: nat)
    requires Over(g, h) && Closed(h, level)
    ensures Over(Pushed(g, level), h) && Over(Popped(g, level), h) && Closed(h, level + 1)
    ensures Over(g.(depth := g.depth + 1), h.(depth := h.depth + 1)) && Closed(h.(depth := h.depth + 1), level)
  {
  }

  lemma OverBack(g: Held, h: Held)
    requires Over(g, h.(depth := h.depth + 1))
    ensures Over(g.(depth := g.depth - 1), h)
  {
  }

  lemma ReadBracedOver(space: string, body: Java, loop: bool, level: nat, g: Held, h: Held)
    requires Over(g, h) && Closed(h, level)
    ensures Over(ReadBraced(space, body, loop, level, g).held, h)
    decreases body, 3
  {
    hide Read, Tag;
    OverSteps(g, h, level);
    if loop {
      ReadOver(body, level + 1, g.(depth := g.depth + 1), h.(depth := h.depth + 1));
      OverBack(Read(body, level + 1, g.(depth := g.depth + 1)).held, h);
    } else {
      assert g.(depth := g.depth + 0) == g;
      ReadOver(body, level + 1, g, h);
    }
  }

  lemma ReadFirstOver(t: Java, level: nat, g: Held, h: Held)
    requires !t.End? && Over(g, h) && Closed(h, level)
    ensures Over(ReadFirst(t, level, g).held, h)
    decreases t, 0
  {
    hide Read, ReadBraced, Tag, Head, Over, Closed, Pushed, Popped, StartsClause, ReadTail;
    OverSteps(g, h, level);
    match t
    case Text(_, _) =>
    case Semi(_) =>
    case Block(body, _) => ReadBracedOver("", body, false, level, g, h);
    case Loop(_, _, _, space, body, _) => ReadBracedOver(space, body, true, level, g, h);
    case Brief(_, _, _, _, body, _) => ReadOver(body, level, Pushed(g, level), h);
    case Do(braced, space, body, tail, _) =>
      var r := if braced then ReadBraced(space, body, true, level, g) else Along(Walk(space, g), Read(body, level, g));
      if braced { ReadBracedOver(space, body, true, level, g, h); } else { ReadOver(body, level, g, h); }
      TailHeld(tail, r.held);
    case ForEach(_, args, _) =>
      ReadOver(args, level, g.(depth := g.depth + 1), h.(depth := h.depth + 1));
      OverBack(Read(args, level, g.(depth := g.depth + 1)).held, h);
    case Clause(_, _, head, body, _) =>
      ReadOver(head, level, g, h);
      ReadOver(body, level, Read(head, level, g).held, h);
  }

  /** Reading never closes what was open before, and counts every loop it leaves open. */
  lemma {:induction false} ReadOver(t: Java, level: nat, g: Held, h: Held)
    requires Over(g, h) && Closed(h, level)
    ensures Over(Read(t, level, g).held, h)
    decreases t, 2
  {
    hide ReadFirst, Over, Closed, Along;
    if !t.End? {
      ReadFirstOver(t, level, g, h);
      ReadOver(t.rest, level, ReadFirst(t, level, g).held, h);
      ReadOn(t, level, g);
      AlongHeld(ReadFirst(t, level, g), Read(t.rest, level, ReadFirst(t, level, g).held));
    }
  }

  /** Held in the end what was held before, and right about every character but white space, ends of `do` and headers. */
  ghost predicate Fine(r: Reading, m: seq<Mark>, h: Held) {
    r.held == h && Same(r.marks, Taken(m))
  }

  lemma LeadSolid(s: string, h: Held, r: Reading, m: seq<Mark>)
    requires h.depth > 0 && !AllSpace(s)
    ensures !Same(Along(Walk(s, h), r).marks, Taken(Tag(s, false) + m))
  {
    hide Same, Taken, Tag, AllSpace;
    TagLength(s, true);
    TagLength(s, false);
    SameTaken(s, true, false);
    SameAlong(Walk(s, h), r, Tag(s, false), m);
  }

  lemma LoopStuck(t: Java, level: nat, g: Held)
    requires (t.Loop? || t.Brief?) && g.depth > 0
    ensures !Same(ReadFirst(t, level, g).marks, Taken(FirstMarks(t, false)))
  {
    hide Same, Taken, Tag, Read, Marks, Along, Walk, HeadMarks, Head, ReadBraced, BracedMarks, Show;
    if t.Loop? {
      HeadStuck(t.kw, t.gap, t.header, g, ReadBraced(t.space, t.body, true, level, g),
                BracedMarks(t.space, t.body, false, true));
    } else {
      var p := Pushed(g, level);
      HeadStuck(t.kw, t.gap, t.header, g, Along(Walk(t.space, p), Read(t.body, level, p)),
                Tag(t.space, true) + Marks(t.body, true));
    }
  }

  lemma DoStuck(t: Java, level: nat, g: Held)
    requires t.Do? && g.depth > 0
    ensures !Same(ReadFirst(t, level, g).marks, Taken(FirstMarks(t, false)))
  {
    hide Same, Taken, Tag, Read, Marks, Along, Walk, ReadTail, TailMarks, ReadBraced, BracedMarks, AllSpace;
    var r := if t.braced then ReadBraced(t.space, t.body, true, level, g)
             else Along(Walk(t.space, g), Read(t.body, level, g));
    var m := if t.braced then BracedMarks(t.space, t.body, false, true) else Tag(t.space, true) + Marks(t.body, true);
    NotSpace("do");
    LeadSolid("do", g, Along(r, ReadTail(t.tail, r.held)), m + TailMarks(t.tail, false));
  }

  lemma ForEachStuck(t: Java, level: nat, g: Held)
    requires t.ForEach? && g.depth > 0
    ensures !Same(ReadFirst(t, level, g).marks, Taken(FirstMarks(t, false)))
  {
    hide Same, Taken, Tag, Read, Marks, Along, Walk, Word, AllSpace;
    var r := Read(t.args, level, g.(depth := g.depth + 1));
    ForEachSolid(t.gap);
    LeadSolid(Word(t.gap), g, Along(r, Walk(")", r.held.(depth := r.held.depth - 1))), Marks(t.args, true) + Tag(")", false));
  }

  lemma ClauseStuck(t: Java, level: nat, g: Held)
    requires t.Clause? && g.depth > 0
    ensures !Same(ReadFirst(t, level, g).marks, Taken(FirstMarks(t, false)))
  {
    hide Same, Taken, Tag, Read, Marks, Along, Walk, AllSpace, StartsClause;
    var r := Read(t.head, level, g);
    WordSolid(t.lead, t.word);
    LeadSolid(t.lead + t.word, g, Along(r, Read(t.body, level, r.held)), Marks(t.head, false) + Marks(t.body, false));
  }

  /** The first character that is no white space is misread where a loop is wrongly held open. */
  lemma FirstStuck(t: Java, level: nat, g: Held)
    requires !t.End? && g.depth > 0 && !FirstSemis(t).blank
    ensures !Same(ReadFirst(t, level, g).marks, Taken(FirstMarks(t, false)))
  {
    hide Same, Taken, Tag, Read, Marks, AllSpace, ReadBraced, BracedMarks;
    match t
    case Text(s, _) => SameTaken(s, true, false);
    case Semi(_) => SolidOne(';'); SameTaken(";", true, false);
    case Block(body, _) => BracedStuck("", body, level, g);
    case Do(_, _, _, _, _) => DoStuck(t, level, g);
    case ForEach(_, _, _) => ForEachStuck(t, level, g);
    case Clause(_, _, _, _, _) => ClauseStuck(t, level, g);
    case _ => LoopStuck(t, level, g);
  }

  lemma SolidOne(c: char)
    requires !IsSpace(c)
    ensures !AllSpace([c])
  {
    assert !IsSpace([c][0]);
  }

  lemma BracedStuck(space: string, body: Java, level: nat, g: Held)
    requires g.depth > 0
    ensures !Same(ReadBraced(space, body, false, level, g).marks, Taken(BracedMarks(space, body, false, false)))
  {
    hide Same, Taken, Tag, Read, Marks, AllSpace;
    var r := Read(body, level + 1, g.(depth := g.depth + 0));
    var a, b := r.marks + Tag("}", r.held.depth > 0), Marks(body, false) + Tag("}", false);
    SolidOne('{');
    SameTaken("{", true, false);
    TagLength(space, true);
    TagLength(space, false);
    TagLength("{", true);
    TagLength("{", false);
    TakenConcat(Tag("{", false), b);
    TakenConcat(Tag(space, false), Tag("{", false) + b);
    TakenTag(space, false);
    TakenTag("{", false);
    SameTwo(Tag("{", true), a, Tag("{", false), Taken(b));
    SameTwo(Tag(space, true), Tag("{", true) + a, Tag(space, false), Tag("{", false) + Taken(b));
  }

  lemma HeadStuck(kw: string, gap: string, header: Java, g: Held, r: Reading, m: seq<Mark>)
    requires g.depth > 0
    ensures !Same(Along(Walk(Head(kw, gap, Show(header)), g), r).marks, Taken(HeadMarks(kw, gap, header, false) + m))
  {
    hide Same, Taken, Tag, HeadMarks, Head, Show, AllSpace;
    var head := Head(kw, gap, Show(header));
    HeadTaken(kw, gap, header);
    HeadSolid(kw, gap, Show(header));
    SameTags(head, true, false);
    TagLength(head, true);
    TagLength(head, false);
    TakenConcat(HeadMarks(kw, gap, header, false), m);
    SameTwo(Tag(head, true), r.marks, Tag(head, false), Taken(m));
  }

  lemma HeadSolid(kw: string, gap: string, header: string)
    ensures !AllSpace(Head(kw, gap, header))
  {
    assert Head(kw, gap, header)[|kw + gap|] == '(';
  }

  /** Where a loop is wrongly held open something is misread, or it is held open in the end. */
  lemma {:induction false} Stuck(t: Java, level: nat, g: Held, h: Held)
    requires g != h && g.depth > 0
    ensures !Fine(Read(t, level, g), Marks(t, false), h)
    decreases t
  {
    hide Same, Taken, ReadFirst, FirstMarks, Along, FirstSemis;
    if !t.End? {
      var r := ReadFirst(t, level, g);
      ReadOn(t, level, g);
      Lengths(t, level, g, false);
      SameAlong(r, Read(t.rest, level, r.held), FirstMarks(t, false), Marks(t.rest, false));
      AlongHeld(r, Read(t.rest, level, r.held));
      if FirstSemis(t).blank {
        BlankFirst(t, level, g);
        Stuck(t.rest, level, g, h);
      } else {
        FirstStuck(t, level, g);
      }
    }
  }

  lemma BlankFirst(t: Java, level: nat, g: Held)
    requires !t.End? && FirstSemis(t).blank
    ensures ReadFirst(t, level, g).held == g
  {
    hide SemisOf;
  }

  /** Two stretches are fine if and only if the first is and the second would be behind it. */
  lemma FineOn(a: Reading, m: seq<Mark>, u: Java, level: nat, h: Held)
    requires h.depth == 0 && Over(a.held, h) && |a.marks| == |m|
    ensures Fine(Along(a, Read(u, level, a.held)), m + Marks(u, false), h)
        <==> Fine(a, m, h) && Fine(Read(u, level, h), Marks(u, false), h)
  {
    hide Same, Taken, Read, Marks, Along;
    SameAlong(a, Read(u, level, a.held), m, Marks(u, false));
    AlongHeld(a, Read(u, level, a.held));
    if a.held != h {
      OverMore(a.held, h);
      Stuck(u, level, a.held, h);
    }
  }

  lemma OverMore(g: Held, h: Held)
    requires Over(g, h) && g != h
    ensures g.depth > h.depth
  {
    assert |g.braceless| > |h.braceless|;
  }

  lemma FineWalk(s: string, h: Held, r: Reading, m: seq<Mark>)
    requires h.depth == 0
    ensures Fine(Along(Walk(s, h), r), Tag(s, false) + m, h) <==> Fine(r, m, h)
  {
    hide Same, Taken, Tag;
    SameWalk(s, h, r, m);
  }

  /** A block, standing in no loop. */
  lemma FineBlock(body: Java, level: nat, h: Held)
    requires Settled(body) && Closed(h, level) && h.depth == 0
    ensures Fine(ReadBraced("", body, false, level, h), BracedMarks("", body, false, false), h) <==> Right(body, false)
    decreases body, 3
  {
    hide Same, Taken, Tag, Read, Marks, Settled, Right, Closed, Over;
    assert h.(depth := h.depth + 0) == h;
    var r := Read(body, level + 1, h);
    OverSteps(h, h, level) by { OverSelf(h); }
    FineIff(body, level + 1, h);
    Lengths(body, level + 1, h, false);
    SameTaken("}", r.held.depth > 0, false);
    SameAlong(r, Walk("}", r.held), Marks(body, false), Tag("}", false));
    FineWalk("{", h, Along(r, Walk("}", r.held)), Marks(body, false) + Tag("}", false));
    FineWalk("", h, Along(Walk("{", h), Along(r, Walk("}", r.held))), Tag("{", false) + (Marks(body, false) + Tag("}", false)));
  }

  lemma OverSelf(h: Held)
    ensures Over(h, h)
  {
  }

  /** A body that stands in a loop, in braces of its own. */
  lemma SameBraced(space: string, body: Java, level: nat, h: Held)
    requires Right(body, true) && Closed(h, level + 1) && h.depth >= 0
    ensures Same(ReadBraced(space, body, true, level, h).marks, Taken(BracedMarks(space, body, h.depth > 0, true)))
    ensures ReadBraced(space, body, true, level, h).held == h
  {
    hide Same, Taken, Tag, Read, Marks, Right;
    var d := h.(depth := h.depth + 1);
    var r := Read(body, level + 1, d);
    assert Closed(d, level + 1);
    hide Closed;
    ReadDeep(body, level + 1, d);
    Lengths(body, level + 1, d, true);
    SameTaken("}", true, true);
    SameAlong(r, Walk("}", d), Marks(body, true), Tag("}", true));
    SameWalk("{", h, Along(r, Walk("}", d)), Marks(body, true) + Tag("}", true));
    SameWalk(space, h, Along(Walk("{", h), Along(r, Walk("}", d))), Tag("{", h.depth > 0) + (Marks(body, true) + Tag("}", true)));
  }

  lemma SameTail(tail: Tail, h: Held)
    requires h.depth >= 0
    ensures Same(ReadTail(tail, h).marks, Taken(TailMarks(tail, h.depth > 0)))
  {
    hide Same, Taken, Tag, TagTail, Head, HeadMarks, Show;
    var head := Walk(Head("while", tail.gap, Show(tail.header)), h);
    var end := Reading(Tag(tail.space + ";", true), h);
    SameHead("while", tail.gap, tail.header, h);
    TakenTag(tail.space + ";", h.depth > 0);
    SameTags(tail.space + ";", true, true);
    HeadLength("while", tail.gap, tail.header, h);
    SameAlong(head, end, HeadMarks("while", tail.gap, tail.header, h.depth > 0), TagTail(tail.space + ";", h.depth > 0));
    SameWalk(tail.mid, h, Along(head, end),
             HeadMarks("while", tail.gap, tail.header, h.depth > 0) + TagTail(tail.space + ";", h.depth > 0));
  }

  lemma HeadLength(kw: string, gap: string, header: Java, h: Held)
    ensures |Walk(Head(kw, gap, Show(header)), h).marks| == |HeadMarks(kw, gap, header, h.depth > 0)|
  {
    hide Tag, HeadMarks, Head, Show;
    var head, m := Head(kw, gap, Show(header)), HeadMarks(kw, gap, header, h.depth > 0);
    HeadMarksShow(kw, gap, header, h.depth > 0);
    TagLength(head, h.depth > 0);
    assert |Chars(m)| == |m|;
  }

  lemma BracedLengths(space: string, body: Java, level: nat, h: Held)
    ensures |ReadBraced(space, body, true, level, h).marks| == |BracedMarks(space, body, h.depth > 0, true)|
  {
    hide ReadBraced, BracedMarks, Show, Braced;
    var r, m := ReadBraced(space, body, true, level, h), BracedMarks(space, body, h.depth > 0, true);
    ReadBracedShow(space, body, true, level, h);
    BracedMarksShow(space, body, h.depth > 0, true);
    assert |Chars(r.marks)| == |r.marks| && |Chars(m)| == |m|;
  }

  lemma SameLoop(t: Java, level: nat, h: Held)
    requires t.Loop? && Right(t.body, true) && Closed(h, level + 1) && h.depth >= 0
    ensures Fine(ReadFirst(t, level, h), FirstMarks(t, h.depth > 0), h)
  {
    hide Same, Taken, Read, Marks, Right, ReadBraced, BracedMarks, HeadMarks, Head, Show, Walk, Along, Closed;
    SameBraced(t.space, t.body, level, h);
    SameHead(t.kw, t.gap, t.header, h);
    HeadLength(t.kw, t.gap, t.header, h);
    SameAlong(Walk(Head(t.kw, t.gap, Show(t.header)), h), ReadBraced(t.space, t.body, true, level, h),
              HeadMarks(t.kw, t.gap, t.header, h.depth > 0), BracedMarks(t.space, t.body, h.depth > 0, true));
    AlongHeld(Walk(Head(t.kw, t.gap, Show(t.header)), h), ReadBraced(t.space, t.body, true, level, h));
  }

  /** A `do` with braces, standing anywhere. */
  lemma SameDo(t: Java, level: nat, h: Held)
    requires t.Do? && t.braced && Right(t.body, true) && Closed(h, level + 1) && h.depth >= 0
    ensures Fine(ReadFirst(t, level, h), FirstMarks(t, h.depth > 0), h)
  {
    hide Same, Taken, Read, Marks, Right, ReadBraced, BracedMarks, ReadTail, TailMarks, Walk, Along, Closed, Tag;
    var r, m := ReadBraced(t.space, t.body, true, level, h), BracedMarks(t.space, t.body, h.depth > 0, true);
    SameBraced(t.space, t.body, level, h);
    BracedLengths(t.space, t.body, level, h);
    SameTail(t.tail, h);
    TailHeld(t.tail, h);
    SameAlong(r, ReadTail(t.tail, h), m, TailMarks(t.tail, h.depth > 0));
    AlongHeld(r, ReadTail(t.tail, h));
    SameWalk("do", h, Along(r, ReadTail(t.tail, h)), m + TailMarks(t.tail, h.depth > 0));
    AlongHeld(Walk("do", h), Along(r, ReadTail(t.tail, h)));
  }

  lemma SameForEach(t: Java, level: nat, h: Held)
    requires t.ForEach? && Right(t.args, true) && Closed(h, level) && h.depth >= 0
    ensures Fine(ReadFirst(t, level, h), FirstMarks(t, h.depth > 0), h)
  {
    hide Same, Taken, Read, Marks, Right, Walk, Along, Tag, Word, Closed;
    var d := h.(depth := h.depth + 1);
    var r := Read(t.args, level, d);
    OpenDeeper(h, level, 0);
    ReadDeep(t.args, level, d);
    Lengths(t.args, level, d, true);
    SameParen(h);
    WalkHeld(")", h);
    SameAlong(r, Walk(")", h), Marks(t.args, true), Tag(")", h.depth > 0));
    AlongHeld(r, Walk(")", h));
    SameWalk(Word(t.gap), h, Along(r, Walk(")", h)), Marks(t.args, true) + Tag(")", h.depth > 0));
    AlongHeld(Walk(Word(t.gap), h), Along(r, Walk(")", h)));
  }

  lemma SameParen(h: Held)
    ensures Same(Walk(")", h).marks, Taken(Tag(")", h.depth > 0)))
  {
    hide Same;
    SameTaken(")", h.depth > 0, h.depth > 0);
  }

  /** A loop without braces, standing in no other. */
  lemma FineBrief(t: Java, level: nat, h: Held)
    requires t.Brief? && Right(t.body, true) && Closed(h, level) && h.depth == 0
    ensures Fine(ReadFirst(t, level, h), FirstMarks(t, false), h) <==> FirstRight(t)
  {
    hide Same, Taken, Read, Marks, Right, Walk, Along, Tag, Head, HeadMarks, Show, SemisOf, Closed, Pushed, Open;
    var p := Pushed(h, level);
    var head, r := Walk(Head(t.kw, t.gap, Show(t.header)), h), Read(t.body, level, p);
    BriefBody(t.body, level, h);
    SameHead(t.kw, t.gap, t.header, h);
    HeadLength(t.kw, t.gap, t.header, h);
    SameWalk(t.space, p, r, Marks(t.body, true)) by { PushedDepth(h, level); }
    SameAlong(head, Along(Walk(t.space, p), r), HeadMarks(t.kw, t.gap, t.header, false), Tag(t.space, true) + Marks(t.body, true));
    AlongHeld(Walk(t.space, p), r);
    AlongHeld(head, Along(Walk(t.space, p), r));
    PushedDepth(h, level);
  }

  lemma PushedDepth(h: Held, level: nat)
    ensures Pushed(h, level).depth == h.depth + 1 && Pushed(h, level) != h
  {
  }

  /** The body of a loop without braces: read, the loop is closed if and only if the body has a `;` left over, and all of it
      is taken for one if and only if, unless in another loop, the loop lasts. */
  lemma BriefBody(body: Java, level: nat, h: Held)
    requires Right(body, true) && Closed(h, level) && h.depth >= 0
    ensures var r, s := Read(body, level, Pushed(h, level)), SemisOf(body);
      && r.held == (if s.own == 0 then Pushed(h, level) else h)
      && (Same(r.marks, Taken(Marks(body, true))) <==> h.depth > 0 || Covers(s, 1))
      && (Same(r.marks, Marks(body, true)) <==> h.depth > 0 || Covers(s, 1))
  {
    hide Same, Taken, Read, Marks, Right, AllIn, Inside, Chars, SemisOf, Show, Open, Covers, Closed, Pushed;
    var p, m := Pushed(h, level), Marks(body, true);
    OpenMore(h, level, 0);
    ReadHeld(body, level, h, 1);
    AllInIff(body, level, h, 1);
    MarksInside(body);
    InsideIsIn(m);
    ReadShow(body, level, p);
    MarksShow(body, true);
    SameIn(Read(body, level, p).marks, m);
    SameIn(Read(body, level, p).marks, Taken(m));
  }

  /** A `do` without braces, standing in no loop: its body is misread. */
  lemma FineBareDo(t: Java, level: nat, h: Held)
    requires t.Do? && !t.braced && Right(t.body, true) && !SemisOf(t.body).blank && Closed(h, level) && h.depth == 0
    ensures !Fine(ReadFirst(t, level, h), FirstMarks(t, false), h)
  {
    hide Same, Taken, Read, Marks, Right, Walk, Along, Tag, ReadTail, TailMarks, SemisOf, Closed;
    var r, m := Along(Walk(t.space, h), Read(t.body, level, h)), Tag(t.space, true) + Marks(t.body, true);
    BareBody(t.body, level, h);
    BareLengths(t.space, t.body, level, h);
    Lengths(t.body, level, h, true);
    SameSpace(t.space, h, Read(t.body, level, h), Marks(t.body, true));
    SameAlong(r, ReadTail(t.tail, r.held), m, TailMarks(t.tail, false));
    SameWalk("do", h, Along(r, ReadTail(t.tail, r.held)), m + TailMarks(t.tail, false));
  }

  lemma SameSpace(space: string, h: Held, r: Reading, m: seq<Mark>)
    ensures Same(Along(Walk(space, h), r).marks, Taken(Tag(space, true) + m)) ==> Same(r.marks, Taken(m))
  {
    hide Same, Taken, Tag;
    TagLength(space, h.depth > 0);
    TagLength(space, true);
    SameAlong(Walk(space, h), r, Tag(space, true), m);
  }

  lemma BareLengths(space: string, body: Java, level: nat, h: Held)
    ensures |Along(Walk(space, h), Read(body, level, h)).marks| == |Tag(space, true) + Marks(body, true)|
  {
    hide Read, Marks;
    Lengths(body, level, h, true);
  }

  lemma BareBody(body: Java, level: nat, h: Held)
    requires Right(body, true) && !SemisOf(body).blank && Closed(h, level) && h.depth >= 0
    ensures Read(body, level, h).held == h
    ensures Same(Read(body, level, h).marks, Taken(Marks(body, true))) <==> h.depth > 0
    ensures Same(Read(body, level, h).marks, Marks(body, true)) <==> h.depth > 0
  {
    hide Same, Taken, Read, Marks, Right, AllIn, Inside, Chars, SemisOf, Show, Open, Closed;
    OpenMore(h, level, 0);
    ReadHeld(body, level, h, 0);
    AllInIff(body, level, h, 0);
    MarksInside(body);
    InsideIsIn(Marks(body, true));
    ReadShow(body, level, h);
    MarksShow(body, true);
    SameIn(Read(body, level, h).marks, Marks(body, true));
    SameIn(Read(body, level, h).marks, Taken(Marks(body, true)));
  }

  lemma FineClause(t: Java, level: nat, h: Held)
    requires t.Clause? && Settled(t.head) && Settled(t.body) && Closed(h, level) && h.depth == 0
    ensures Fine(ReadFirst(t, level, h), FirstMarks(t, false), h) <==> FirstRight(t)
    decreases t, 0
  {
    hide Same, Taken, Read, Marks, Right, Walk, Along, Tag, Settled, Closed, Over, StartsClause, Fine;
    var r := Read(t.head, level, h);
    OverSelf(h);
    ReadOver(t.head, level, h, h);
    Lengths(t.head, level, h, false);
    FineIff(t.head, level, h);
    FineIff(t.body, level, h);
    FineOn(r, Marks(t.head, false), t.body, level, h);
    FineWalk(t.lead + t.word, h, Along(r, Read(t.body, level, r.held)), Marks(t.head, false) + Marks(t.body, false));
  }

  lemma FineFirst(t: Java, level: nat, h: Held)
    requires !t.End? && Settled(t) && Closed(h, level) && h.depth == 0
    ensures Fine(ReadFirst(t, level, h), FirstMarks(t, false), h) <==> FirstRight(t)
    decreases t, 1
  {
    hide Same, Taken, Tag, Settled, Right, SemisOf, ReadBraced, BracedMarks, Read, Marks;
    SettledParts(t);
    match t
    case Text(s, _) => SameTaken(s, false, false);
    case Semi(_) => SameTaken(";", false, false);
    case Block(body, _) => FineBlock(body, level, h);
    case Loop(_, _, _, _, _, _) => SameLoop(t, level, h);
    case Brief(_, _, _, _, _, _) => FineBrief(t, level, h);
    case Do(braced, _, _, _, _) => if braced { SameDo(t, level, h); } else { FineBareDo(t, level, h); }
    case ForEach(_, _, _) => SameForEach(t, level, h);
    case Clause(_, _, _, _, _) => FineClause(t, level, h);
  }

  /** Outside every loop the reader is right about every character, ends of `do` and headers aside, and holds in the
      end what it held before, if and only if every loop without braces is closed by the very last character of its
      body and every `do` has braces. */
  lemma {:induction false} FineIff(t: Java, level: nat, h: Held)
    requires Settled(t) && Closed(h, level) && h.depth == 0
    ensures Fine(Read(t, level, h), Marks(t, false), h) <==> Right(t, false)
    decreases t, 2
  {
    hide ReadFirst, FirstMarks, Along, Same, Taken, Settled, Right, FirstRight, Closed, Over;
    if t.End? {
      NothingFine(level, h);
    } else {
      var r := ReadFirst(t, level, h);
      ReadOn(t, level, h);
      OverSelf(h);
      ReadFirstOver(t, level, h, h);
      Lengths(t, level, h, false);
      SettledParts(t);
      FineFirst(t, level, h);
      FineIff(t.rest, level, h);
      FineOn(r, FirstMarks(t, false), t.rest, level, h);
      RightSplits(t);
    }
  }

  lemma NothingFine(level: nat, h: Held)
    ensures Fine(Read(End, level, h), Marks(End, false), h) && Right(End, false)
  {
  }

  /** Where every loop without braces is closed by its body the reader is right about every character that is no white
      space, but for the ends of `do` and what headers hold, and holds in the end what it held before. */
  lemma ReadRight(t: Java, level: nat, h: Held)
    requires Right(t, h.depth > 0) && Closed(h, level) && h.depth >= 0
    ensures Same(Read(t, level, h).marks, Taken(Marks(t, h.depth > 0))) && Read(t, level, h).held == h
  {
    hide Same, Taken, Read, Marks, Right, Settled, Closed;
    if h.depth > 0 {
      ReadDeep(t, level, h);
    } else {
      RightSettles(t);
      FineIff(t, level, h);
    }
  }

  // --- lines ---

  /** The lines with a character of the end of a `do`. */
  function TailLines(m: seq<Mark>, line: nat): set<nat> {
    if m == [] then {}
    else if m[0].c == '\n' then TailLines(m[1..], line + 1)
    else (if m[0].place.DoEnd? && !IsSpace(m[0].c) then {line} else {}) + TailLines(m[1..], line)
  }

  /** The lines with a character that stands in a loop body and in the header of a loop that stands in none. */
  function HeadLines(m: seq<Mark>, line: nat): set<nat> {
    if m == [] then {}
    else if m[0].c == '\n' then HeadLines(m[1..], line + 1)
    else (if m[0].place.InHeader? && m[0].inBody && !IsSpace(m[0].c) then {line} else {}) + HeadLines(m[1..], line)
  }

  lemma TakenNone()
    ensures Taken([]) == []
  {
  }

  lemma TakenNext(m: seq<Mark>)
    requires m != []
    ensures Taken(m) != [] && Taken(m)[1..] == Taken(m[1..]) && Taken(m)[0] == Take(m[0])
  {
  }

  /** Between what a reader finds that misreads nothing else and the truth stand the ends of `do` and the headers. */
  lemma {:induction false} TakenLines(m: seq<Mark>, line: nat)
    ensures BodyLines(Taken(m), line) + HeadLines(m, line) == BodyLines(m, line) + TailLines(m, line)
    ensures TailLines(m, line) <= BodyLines(Taken(m), line) && HeadLines(m, line) <= BodyLines(m, line)
    ensures Breaks(Taken(m)) == Breaks(m)
  {
    hide Taken;
    if m == [] {
      TakenNone();
    } else {
      TakenNext(m);
      TakenLines(m[1..], if m[0].c == '\n' then line + 1 else line);
    }
  }

  lemma {:induction false} SameLines(a: seq<Mark>, b: seq<Mark>, line: nat)
    requires Same(a, b)
    ensures BodyLines(a, line) == BodyLines(b, line) && Breaks(a) == Breaks(b)
  {
    if a != [] {
      assert a[0].c == b[0].c;
      SameLines(a[1..], b[1..], if a[0].c == '\n' then line + 1 else line);
    }
  }

  lemma {:induction false} TailLinesConcat(a: seq<Mark>, b: seq<Mark>, line: nat)
    ensures TailLines(a + b, line) == TailLines(a, line) + TailLines(b, line + Breaks(a))
  {
    if a == [] {
      assert a + b == b;
    } else {
      assert (a + b)[1..] == a[1..] + b;
      TailLinesConcat(a[1..], b, if a[0].c == '\n' then line + 1 else line);
    }
  }

  /** In a loop body the ends of `do` add nothing and headers take nothing away. */
  lemma {:induction false} LinesInside(m: seq<Mark>, line: nat)
    requires Inside(m)
    ensures TailLines(m, line) <= BodyLines(m, line) && HeadLines(m, line) == {}
  {
    if m != [] {
      LinesInside(m[1..], if m[0].c == '\n' then line + 1 else line);
    }
  }

  /** No end of a `do` among them. */
  ghost predicate Tailless(m: seq<Mark>) {
    forall i :: 0 <= i < |m| ==> !m[i].place.DoEnd?
  }

  lemma {:induction false} NoTails(m: seq<Mark>, line: nat)
    requires Tailless(m)
    ensures TailLines(m, line) == {}
  {
    if m != [] {
      NoTails(m[1..], if m[0].c == '\n' then line + 1 else line);
    }
  }

  lemma TaillessTag(s: string, inBody: bool)
    ensures Tailless(Tag(s, inBody))
  {
  }

  lemma TaillessConcat(a: seq<Mark>, b: seq<Mark>)
    requires Tailless(a) && Tailless(b)
    ensures Tailless(a + b)
  {
  }

  lemma TaillessHead(kw: string, gap: string, header: Java)
    ensures Tailless(HeadMarks(kw, gap, header, false))
  {
    hide Tag, Marks;
    var m := Placed(Marks(header, false), InHeader);
    TaillessTag(Opens(kw, gap), false);
    TaillessTag(")", false);
    TaillessConcat(m, Tag(")", false));
    TaillessConcat(Tag(Opens(kw, gap), false), m + Tag(")", false));
  }

  /** White space and the `;`: one line, the last. */
  lemma {:induction false} TailLinesEnd(space: string, inBody: bool, line: nat)
    requires AllSpace(space)
    ensures var m := TagTail(space + ";", inBody);
      var last := {line + Breaks(m)};
      TailLines(m, line) == last && BodyLines(m, line) == if inBody then last else {}
    decreases |space|
  {
    var m := TagTail(space + ";", inBody);
    if space == [] {
      assert m[1..] == [];
    } else {
      assert (space + ";")[1..] == space[1..] + ";";
      assert m[1..] == TagTail(space[1..] + ";", inBody);
      TailLinesEnd(space[1..], inBody, if space[0] == '\n' then line + 1 else line);
    }
  }

  // --- whole files ---

  /** A file in which, within each outermost loop, every loop without braces is closed by its body: the scanner's stacks are
      empty in the end and it is right about every character, ends of `do` and headers aside, if and only if outside a
      loop, too, every loop without braces is closed, by the very last character of its body, and every `do` has braces. */
  lemma FileRightIff(t: Java)
    requires WellFormed(t) && Settled(t)
    ensures var st, r := RunTo(Show(t), Start, |Show(t)|), Read(t, 0, Held([], 0));
      && st == Moved(Start, r)
      && (st.braceless == [] && st.depth == 0 && Same(r.marks, Taken(Marks(t, false))) <==> Right(t, false))
  {
    hide Same, Taken, Read, Marks, BodyLines, Breaks, IsJava, FirstFits, First, Right, Settled;
    ScanFile(t);
    FineIff(t, 0, Held([], 0));
  }

  /** In a file where every loop without braces is closed by its body, and outside a loop by its very last character,
      the scanner ends with empty stacks and finds the lines of the loop bodies and those on which a `do` ends, but of
      what the headers hold only what stands in another loop. So it finds the right lines if and only if every `do` ends
      on a line that has a character of some loop body, and every loop body in a header of a loop that stands in no
      other one keeps to lines that are found anyway. */
  lemma RightFile(t: Java)
    requires WellFormed(t) && Right(t, false)
    ensures var st, m := RunTo(Show(t), Start, |Show(t)|), Marks(t, false);
      && st == Start.(index := |Show(t)|, line := 1 + Breaks(m), inside := st.inside)
      && st.inside == BodyLines(Taken(m), 1)
      && st.inside + HeadLines(m, 1) == BodyLines(m, 1) + TailLines(m, 1)
      && (st.inside == BodyLines(m, 1) <==> TailLines(m, 1) <= BodyLines(m, 1) && HeadLines(m, 1) <= st.inside)
  {
    hide Same, Taken, Read, Marks, BodyLines, TailLines, HeadLines, Breaks, IsJava, FirstFits, First, Right;
    var h := Held([], 0);
    ScanFile(t);
    ReadRight(t, 0, h);
    ReadLength(t, 0, h);
    SameLines(Read(t, 0, h).marks, Taken(Marks(t, false)), 1);
    TakenLines(Marks(t, false), 1);
  }

  // --- one construct ---

  /** A loop without braces, standing anywhere: the reader holds behind it what it held before if and only if the body
      has a `;` left over; and it is also right about every character if and only if, unless the loop stands in
      another one, the body has exactly one and ends on it, and no loop body stands in the header. */
  lemma BriefRightIff(t: Java, level: nat, h: Held)
    requires t.Brief? && Right(t.body, true) && Closed(h, level) && h.depth >= 0
    ensures var r, s := ReadFirst(t, level, h), SemisOf(t.body);
      && r.held == (if s.own == 0 then Pushed(h, level) else h)
      && (r.held == h <==> s.own >= 1)
      && (r.held == h && Same(r.marks, FirstMarks(t, h.depth > 0))
          <==> s.own >= 1 && (h.depth > 0 || (s.own == 1 && s.last && Bodiless(t.header))))
  {
    hide Same, Read, Marks, Right, Walk, Along, Tag, Head, HeadMarks, Show, SemisOf, Closed, Pushed, Open, Bodiless;
    var p := Pushed(h, level);
    var head, r := Walk(Head(t.kw, t.gap, Show(t.header)), h), Read(t.body, level, p);
    var m := Tag(t.space, true) + Marks(t.body, true);
    PushedDepth(h, level);
    BriefBody(t.body, level, h);
    SemisSound(t.body);
    HeaderRightIff(t.kw, t.gap, t.header, h);
    HeadLength(t.kw, t.gap, t.header, h);
    TagLength(t.space, true);
    WalkTag(t.space, p);
    SameTags(t.space, true, true);
    SameTwo(Tag(t.space, true), r.marks, Tag(t.space, true), Marks(t.body, true));
    AlongMarks(head, Along(Walk(t.space, p), r));
    AlongMarks(Walk(t.space, p), r);
    SameTwo(head.marks, Along(Walk(t.space, p), r).marks, HeadMarks(t.kw, t.gap, t.header, h.depth > 0), m);
    AlongHeld(Walk(t.space, p), r);
    AlongHeld(head, Along(Walk(t.space, p), r));
  }

  lemma AlongMarks(a: Reading, b: Reading)
    ensures Along(a, b).marks == a.marks + b.marks
  {
  }

  lemma WalkTag(s: string, h: Held)
    ensures Walk(s, h) == Reading(Tag(s, h.depth > 0), h)
  {
  }

  /** A `do` with braces, standing anywhere: the reader holds behind it what it held before and finds the lines of its
      body and the line of its last `;`, but in the header only what stands in another loop. The lines are the right
      ones if and only if the `do` stands in a loop, or its last line has a character of a loop body and every line of
      one in the header is found anyway. */
  lemma DoRightIff(t: Java, level: nat, h: Held, line: nat)
    requires t.Do? && t.braced && AllSpace(t.tail.space) && Right(t.body, true) && Closed(h, level) && h.depth >= 0
    ensures var r, m := ReadFirst(t, level, h), FirstMarks(t, h.depth > 0);
      var found, end := BodyLines(r.marks, line), line + Breaks(m);
      && r.held == h
      && found + HeadLines(m, line) == BodyLines(m, line) + {end} && end in found
      && (h.depth > 0 ==> end in BodyLines(m, line) && HeadLines(m, line) == {})
      && (found == BodyLines(m, line) <==> h.depth > 0 || (end in BodyLines(m, line) && HeadLines(m, line) <= found))
  {
    hide Same, ReadFirst, FirstMarks, BodyLines, TailLines, HeadLines, Breaks, Taken, Right, Closed, Inside;
    var m := FirstMarks(t, h.depth > 0);
    assert Closed(h, level + 1) by { OpenMore(h, level, 0); }
    SameDo(t, level, h);
    SameLines(ReadFirst(t, level, h).marks, Taken(m), line);
    TakenLines(m, line);
    DoLines(t, h.depth > 0, line);
    if h.depth > 0 {
      FirstInside(t);
      LinesInside(m, line);
    }
  }

  /** Where the ends of `do` among the marks of a `do` are. */
  lemma DoLines(t: Java, inBody: bool, line: nat)
    requires t.Do? && t.braced && AllSpace(t.tail.space)
    ensures var m := FirstMarks(t, inBody);
      var end := line + Breaks(m);
      && BodyLines(m, line) + TailLines(m, line) == BodyLines(m, line) + {end} && end in TailLines(m, line)
      && (inBody ==> end in BodyLines(m, line))
  {
    hide Tag, TagTail, Marks, BodyLines, TailLines, Breaks, HeadMarks, Inside, Tailless;
    var tail := t.tail;
    var head, last := HeadMarks("while", tail.gap, tail.header, inBody), TagTail(tail.space + ";", inBody);
    var a, b := DoStart(t, inBody), Marks(t.body, true) + Tag("}", true);
    var c := Tag(tail.mid, inBody) + head;
    DoInParts(t, inBody);
    MarksInside(t.body);
    InsideTag("}");
    InsideConcat(Marks(t.body, true), Tag("}", true));
    LinesInside(b, line + Breaks(a));
    DoStartLines(t, inBody, line);
    LinesOfThree(a, b, c + last, line);
    var l := line + Breaks(a) + Breaks(b);
    MidLines(tail, inBody, l);
    TailLinesConcat(c, last, l);
    BodyLinesConcat(c, last, l);
    BreaksConcat(c, last);
    TailLinesEnd(tail.space, inBody, l + Breaks(c));
  }

  function DoStart(t: Java, inBody: bool): seq<Mark>
    requires t.Do?
  {
    Tag("do", inBody) + (Tag(t.space, inBody) + Tag("{", inBody))
  }

  lemma DoInParts(t: Java, inBody: bool)
    requires t.Do? && t.braced
    ensures FirstMarks(t, inBody)
         == DoStart(t, inBody) + ((Marks(t.body, true) + Tag("}", true))
                                  + ((Tag(t.tail.mid, inBody) + HeadMarks("while", t.tail.gap, t.tail.header, inBody))
                                     + TagTail(t.tail.space + ";", inBody)))
  {
    hide Tag, TagTail, Marks, HeadMarks;
    var a, b := Tag("do", inBody), Tag(t.space, inBody) + Tag("{", inBody);
    var c := Marks(t.body, true) + Tag("}", true);
    var d := TailMarks(t.tail, inBody);
    assert BracedMarks(t.space, t.body, inBody, true) == b + c;
    assert a + ((b + c) + d) == (a + b) + (c + d);
  }

  lemma DoStartLines(t: Java, inBody: bool, line: nat)
    requires t.Do?
    ensures TailLines(DoStart(t, inBody), line) == {}
  {
    hide Tag, TailLines, Tailless;
    TaillessTag("do", inBody);
    TaillessTag(t.space, inBody);
    TaillessTag("{", inBody);
    TaillessConcat(Tag(t.space, inBody), Tag("{", inBody));
    TaillessConcat(Tag("do", inBody), Tag(t.space, inBody) + Tag("{", inBody));
    NoTails(DoStart(t, inBody), line);
  }

  /** What stands between the body of a `do` and its end. */
  lemma MidLines(tail: Tail, inBody: bool, line: nat)
    ensures var m := Tag(tail.mid, inBody) + HeadMarks("while", tail.gap, tail.header, inBody);
      TailLines(m, line) <= BodyLines(m, line)
  {
    hide Tag, HeadMarks, BodyLines, TailLines, Inside, Tailless;
    var head := HeadMarks("while", tail.gap, tail.header, inBody);
    if inBody {
      InsideTag(tail.mid);
      HeadInside("while", tail.gap, tail.header);
      InsideConcat(Tag(tail.mid, true), head);
      LinesInside(Tag(tail.mid, true) + head, line);
    } else {
      TaillessTag(tail.mid, false);
      TaillessHead("while", tail.gap, tail.header);
      TaillessConcat(Tag(tail.mid, false), head);
      NoTails(Tag(tail.mid, false) + head, line);
    }
  }

  lemma LinesOfThree(a: seq<Mark>, b: seq<Mark>, c: seq<Mark>, line: nat)
    ensures var i, j := line + Breaks(a), line + Breaks(a) + Breaks(b);
      && BodyLines(a + (b + c), line) == BodyLines(a, line) + (BodyLines(b, i) + BodyLines(c, j))
      && TailLines(a + (b + c), line) == TailLines(a, line) + (TailLines(b, i) + TailLines(c, j))
      && Breaks(a + (b + c)) == Breaks(a) + Breaks(b) + Breaks(c)
  {
    hide BodyLines, TailLines, Breaks;
    BodyLinesConcat(a, b + c, line);
    BodyLinesConcat(b, c, line + Breaks(a));
    TailLinesConcat(a, b + c, line);
    TailLinesConcat(b, c, line + Breaks(a));
    BreaksConcat(a, b + c);
    BreaksConcat(b, c);
  }

  /** A `do` without braces: the reader holds what it held, and is right about the body if and only if the `do` stands
      in a loop. */
  lemma BareDoRightIff(t: Java, level: nat, h: Held)
    requires t.Do? && !t.braced && Right(t.body, true) && !SemisOf(t.body).blank && Closed(h, level) && h.depth >= 0
    ensures ReadFirst(t, level, h).held == h
    ensures Same(Read(t.body, level, h).marks, Marks(t.body, true)) <==> h.depth > 0
  {
    hide Same, Read, Marks, Walk, Along, ReadTail, SemisOf, Closed, Right;
    var r := Along(Walk(t.space, h), Read(t.body, level, h));
    BareBody(t.body, level, h);
    AlongHeld(Walk(t.space, h), Read(t.body, level, h));
    TailHeld(t.tail, r.held);
    AlongHeld(r, ReadTail(t.tail, r.held));
    AlongHeld(Walk("do", h), Along(r, ReadTail(t.tail, r.held)));
  }

  datatype Header = Header(kw: string, gap: string, header: Java, space: string)

  /** Headers one behind the other, over one statement. */
  function Nest(hs: seq<Header>, body: Java): Java {
    if hs == [] then body
    else Brief(hs[0].kw, hs[0].gap, hs[0].header, hs[0].space, Nest(hs[1..], body), End)
  }

  /** `n` headers over a statement with `k` of `;` left over leave `n - k` loops open, and none if and only if
      there are as many `;` as headers. */
  lemma {:induction false} NestLeaves(hs: seq<Header>, body: Java, level: nat, h: Held, n: nat)
    requires Right(body, true) && Closed(h, level)
    ensures var r := Read(Nest(hs, body), level, Open(h, level, n));
      && r.held == Open(h, level, Minus(n + |hs|, SemisOf(body).own))
      && (r.held == h <==> SemisOf(body).own >= n + |hs|)
    decreases |hs|
  {
    hide Read, SemisOf, Right, Open, Closed, Pushed;
    OpenMore(h, level, n);
    OpenNone(h, level, Minus(n + |hs|, SemisOf(body).own));
    if hs == [] {
      ReadHeld(body, level, h, n);
    } else {
      var t := Nest(hs, body);
      NestLeaves(hs[1..], body, level, h, n + 1);
      ReadAlone(t, level, Open(h, level, n));
    }
  }

  lemma OpenNone(h: Held, level: nat, n: nat)
    ensures Open(h, level, n) == h <==> n == 0
  {
    assert |Open(h, level, n).braceless| == |h.braceless| + n;
    assert h.braceless + Repeat(level, 0) == h.braceless;
  }

  lemma ReadAlone(t: Java, level: nat, h: Held)
    requires t.Brief? && t.rest.End?
    ensures Read(t, level, h).held == Read(t.body, level, Pushed(h, level)).held
  {
    hide Tag, Head;
  }
}
