// What the reader of Java trees holds and takes for loop bodies, by a count of `;`.
module JavaSemis {
  // How many `;` a stretch of text has left over for the loops open around it, and whether the last character is one of
  // them: `SemisOf` decides what `JavaTrees.Read` makes of it.

  import opened Strings
  import opened JavaLoops
  import opened JavaTrees

  // --- counting `;` ---

  /** Of a stretch of text: the `;` at its own brace level that no loop inside it takes, whether the last character
      is one of them, and whether it is all white space. */
  datatype Semis = Semis(own: nat, last: bool, blank: bool)

  const SOLID := Semis(0, false, false)

  function Minus(a: nat, b: nat): nat {
    if a < b then 0 else a - b
  }

  function Both(a: Semis, b: Semis): Semis {
    Semis(a.own + b.own, if b.blank then a.last else b.last, a.blank && b.blank)
  }

  /** A loop without braces takes the first `;` of its body; the end of a `do` takes its own. */
  function FirstSemis(t: Java): Semis
    requires !t.End?
    decreases t, 0
  {
    match t
    case Text(s, _) => Semis(0, false, AllSpace(s))
    case Semi(_) => Semis(1, true, false)
    case Brief(_, _, _, _, body, _) =>
      var b := SemisOf(body);
      Semis(Minus(b.own, 1), b.last && b.own >= 2, false)
    case Do(braced, _, body, _, _) => if braced then SOLID else Both(SOLID, Both(SemisOf(body), SOLID))
    case ForEach(_, args, _) => Both(SOLID, Both(SemisOf(args), SOLID))
    case Clause(_, _, head, body, _) => Both(SOLID, Both(SemisOf(head), SemisOf(body)))
    case _ => SOLID
  }

  function SemisOf(t: Java): Semis
    decreases t, 1
  {
    if t.End? then Semis(0, false, true) else Both(FirstSemis(t), SemisOf(t.rest))
  }

  /** `n` open loops last through the whole stretch. */
  predicate Covers(s: Semis, n: nat) {
    s.blank || n > s.own || (n == s.own && n > 0 && s.last)
  }

  /** Every loop without braces is closed by its body, and where it stands in no loop itself by the very last
      character of the body; and no `do` without braces, except in a loop. */
  predicate Right(t: Java, inBody: bool) {
    match t
    case End => true
    case Text(_, rest) => Right(rest, inBody)
    case Semi(rest) => Right(rest, inBody)
    case Block(body, rest) => Right(body, inBody) && Right(rest, inBody)
    case Loop(_, _, _, _, body, rest) => Right(body, true) && Right(rest, inBody)
    case Brief(_, _, _, _, body, rest) =>
      Right(body, true) && SemisOf(body).own >= 1 && (inBody || Covers(SemisOf(body), 1)) && Right(rest, inBody)
    case Do(braced, _, body, _, rest) => Right(body, true) && (braced || inBody) && Right(rest, inBody)
    case ForEach(_, args, rest) => Right(args, true) && Right(rest, inBody)
    case Clause(_, _, head, body, rest) => Right(head, inBody) && Right(body, inBody) && Right(rest, inBody)
  }

  lemma RightParts(t: Java, inBody: bool)
    requires !t.End? && Right(t, inBody)
    ensures Right(t.rest, inBody)
    ensures t.Block? ==> Right(t.body, inBody)
    ensures t.Loop? || t.Brief? || t.Do? ==> Right(t.body, true)
    ensures t.Brief? ==> SemisOf(t.body).own >= 1 && (inBody || Covers(SemisOf(t.body), 1))
    ensures t.Do? ==> t.braced || inBody
    ensures t.ForEach? ==> Right(t.args, true)
    ensures t.Clause? ==> Right(t.head, inBody) && Right(t.body, inBody)
  {
    hide SemisOf, Covers;
  }

  /** White space holds no `;`, and a last one is one. */
  predicate Sound(s: Semis) {
    (s.blank ==> s.own == 0) && (s.last ==> s.own > 0)
  }

  lemma FirstSemisSound(t: Java)
    requires !t.End?
    ensures Sound(FirstSemis(t))
    decreases t, 0
  {
    hide SemisOf;
    match t
    case Do(_, _, body, _, _) => SemisSound(body);
    case ForEach(_, args, _) => SemisSound(args);
    case Clause(_, _, head, body, _) => SemisSound(head); SemisSound(body);
    case _ =>
  }

  lemma {:induction false} SemisSound(t: Java)
    ensures Sound(SemisOf(t))
    decreases t, 1
  {
    hide FirstSemis;
    if !t.End? {
      FirstSemisSound(t);
      SemisSound(t.rest);
    }
  }

  lemma CoversBoth(a: Semis, b: Semis, n: nat)
    requires Sound(a) && Sound(b)
    ensures Covers(Both(a, b), n) <==> Covers(a, n) && Covers(b, Minus(n, a.own))
  {
  }

  // --- what the reader holds ---

  function Repeat(x: nat, n: nat): seq<nat> {
    seq(n, _ => x)
  }

  /** `h`, and `n` loops without braces more, all headed at this brace level. */
  function Open(h: Held, level: nat, n: nat): Held {
    Held(h.braceless + Repeat(level, n), h.depth + n)
  }

  /** No loop headed at this brace level or deeper is held open. */
  predicate Closed(h: Held, level: nat) {
    h.braceless != [] ==> Last(h.braceless) < level
  }

  lemma OpenMore(h: Held, level: nat, n: nat)
    requires Closed(h, level)
    ensures Open(h, level, 0) == h
    ensures Pushed(Open(h, level, n), level) == Open(h, level, n + 1)
    ensures Popped(Open(h, level, n), level) == Open(h, level, Minus(n, 1))
    ensures Closed(Open(h, level, n), level + 1)
  {
    assert h.braceless + Repeat(level, 0) == h.braceless;
    assert Repeat(level, n) + [level] == Repeat(level, n + 1);
    if n > 0 {
      assert Init(h.braceless + Repeat(level, n)) == h.braceless + Repeat(level, n - 1);
    }
  }

  lemma OpenDeeper(h: Held, level: nat, n: nat)
    requires Closed(h, level)
    ensures var d := h.(depth := h.depth + 1);
      var o := Open(h, level, n);
      Closed(d, level) && Open(d, level, n) == o.(depth := o.depth + 1)
  {
  }

  lemma ReadBracedHeld(space: string, body: Java, loop: bool, level: nat, h: Held)
    requires Right(body, true) && Closed(h, level + 1)
    ensures ReadBraced(space, body, loop, level, h).held == h
    decreases body, 3
  {
    var inner := h.(depth := h.depth + if loop then 1 else 0);
    OpenMore(inner, level + 1, 0);
    ReadHeld(body, level + 1, inner, 0);
    hide Read, Right, SemisOf, Closed;
  }

  lemma AlongHeld(a: Reading, b: Reading)
    ensures Along(a, b).held == b.held
  {
  }

  lemma WalkHeld(s: string, h: Held)
    ensures Walk(s, h).held == h
  {
  }

  lemma TailHeld(tail: Tail, h: Held)
    ensures ReadTail(tail, h).held == h
  {
  }

  lemma BriefHeld(t: Java, level: nat, h: Held, n: nat)
    requires t.Brief? && Right(t.body, true) && SemisOf(t.body).own >= 1 && Closed(h, level)
    ensures ReadFirst(t, level, Open(h, level, n)).held == Open(h, level, Minus(n, FirstSemis(t).own))
    decreases t, 0
  {
    hide Read, ReadBraced, Open, Pushed, Popped, SemisOf, Along, Walk, ReadTail, Head, StartsClause, Right, Closed;
    var o := Open(h, level, n);
    var p := Pushed(o, level);
    OpenMore(h, level, n);
    ReadHeld(t.body, level, h, n + 1);
    AlongHeld(Walk(t.space, p), Read(t.body, level, p));
    AlongHeld(Walk(Head(t.kw, t.gap, Show(t.header)), o), Along(Walk(t.space, p), Read(t.body, level, p)));
  }

  lemma DoHeld(t: Java, level: nat, h: Held, n: nat)
    requires t.Do? && Right(t.body, true) && Closed(h, level)
    ensures ReadFirst(t, level, Open(h, level, n)).held == Open(h, level, Minus(n, FirstSemis(t).own))
    decreases t, 0
  {
    hide Read, ReadBraced, Open, Pushed, Popped, SemisOf, Along, Walk, ReadTail, Head, StartsClause, Right, Closed;
    var o := Open(h, level, n);
    var r := if t.braced then ReadBraced(t.space, t.body, true, level, o)
             else Along(Walk(t.space, o), Read(t.body, level, o));
    if t.braced {
      OpenMore(h, level, n);
      ReadBracedHeld(t.space, t.body, true, level, o);
    } else {
      ReadHeld(t.body, level, h, n);
      AlongHeld(Walk(t.space, o), Read(t.body, level, o));
    }
    TailHeld(t.tail, r.held);
    AlongHeld(r, ReadTail(t.tail, r.held));
    AlongHeld(Walk("do", o), Along(r, ReadTail(t.tail, r.held)));
  }

  lemma ForEachHeld(t: Java, level: nat, h: Held, n: nat)
    requires t.ForEach? && Right(t.args, true) && Closed(h, level)
    ensures ReadFirst(t, level, Open(h, level, n)).held == Open(h, level, Minus(n, FirstSemis(t).own))
    decreases t, 0
  {
    hide Read, ReadBraced, Open, Pushed, Popped, SemisOf, Along, Walk, ReadTail, Head, StartsClause, Right, Closed;
    var o := Open(h, level, n);
    OpenDeeper(h, level, n);
    OpenDeeper(h, level, Minus(n, SemisOf(t.args).own));
    ReadHeld(t.args, level, h.(depth := h.depth + 1), n);
    var r := Read(t.args, level, o.(depth := o.depth + 1));
    var out := r.held.(depth := r.held.depth - 1);
    WalkHeld(")", out);
    AlongHeld(r, Walk(")", out));
    AlongHeld(Walk(Word(t.gap), o), Along(r, Walk(")", out)));
  }

  lemma ClauseHeld(t: Java, level: nat, h: Held, n: nat)
    requires t.Clause? && Right(t.head, true) && Right(t.body, true) && Closed(h, level)
    ensures ReadFirst(t, level, Open(h, level, n)).held == Open(h, level, Minus(n, FirstSemis(t).own))
    decreases t, 0
  {
    hide Read, ReadBraced, Open, Pushed, Popped, SemisOf, Along, Walk, ReadTail, Head, StartsClause, Right, Closed;
    var o := Open(h, level, n);
    ReadHeld(t.head, level, h, n);
    ReadHeld(t.body, level, h, Minus(n, SemisOf(t.head).own));
    var r := Read(t.head, level, o);
    AlongHeld(r, Read(t.body, level, r.held));
    AlongHeld(Walk(t.lead + t.word, o), Along(r, Read(t.body, level, r.held)));
  }

  lemma ReadFirstHeld(t: Java, level: nat, h: Held, n: nat)
    requires !t.End? && Right(t, true) && Closed(h, level)
    ensures ReadFirst(t, level, Open(h, level, n)).held == Open(h, level, Minus(n, FirstSemis(t).own))
    decreases t, 1
  {
    hide Read, ReadBraced, Open, Pushed, Popped, SemisOf, Along, Walk, ReadTail, Head, StartsClause, Right, Closed;
    var o := Open(h, level, n);
    RightParts(t, true);
    OpenMore(h, level, n);
    match t
    case Text(s, _) => WalkHeld(s, o);
    case Semi(_) =>
    case Block(body, _) => ReadBracedHeld("", body, false, level, o);
    case Loop(kw, gap, header, space, body, _) =>
      ReadBracedHeld(space, body, true, level, o);
      AlongHeld(Walk(Head(kw, gap, Show(header)), o), ReadBraced(space, body, true, level, o));
    case Brief(_, _, _, _, _, _) => BriefHeld(t, level, h, n);
    case Do(_, _, _, _, _) => DoHeld(t, level, h, n);
    case ForEach(_, _, _) => ForEachHeld(t, level, h, n);
    case Clause(_, _, _, _, _) => ClauseHeld(t, level, h, n);
  }

  /** Each `;` left over closes one of the loops held open; what was open before stays. */
  lemma {:induction false} ReadHeld(t: Java, level: nat, h: Held, n: nat)
    requires Right(t, true) && Closed(h, level)
    ensures Read(t, level, Open(h, level, n)).held == Open(h, level, Minus(n, SemisOf(t).own))
    decreases t, 2
  {
    hide ReadFirst, FirstSemis, Right, Open;
    if t.End? {
      OpenMore(h, level, n);
    } else {
      RightParts(t, true);
      ReadFirstHeld(t, level, h, n);
      ReadHeld(t.rest, level, h, Minus(n, FirstSemis(t).own));
    }
  }

  // --- which characters the reader takes for loop bodies ---

  ghost predicate AllIn(m: seq<Mark>) {
    forall i :: 0 <= i < |m| ==> m[i].inBody || IsSpace(m[i].c)
  }

  lemma AllInConcat(a: seq<Mark>, b: seq<Mark>)
    ensures AllIn(a + b) <==> AllIn(a) && AllIn(b)
  {
    if AllIn(a + b) {
      forall i | 0 <= i < |a|
        ensures a[i].inBody || IsSpace(a[i].c)
      {
        assert (a + b)[i] == a[i];
      }
      forall i | 0 <= i < |b|
        ensures b[i].inBody || IsSpace(b[i].c)
      {
        assert (a + b)[|a| + i] == b[i];
      }
    }
  }

  lemma AllInTag(s: string, inBody: bool)
    ensures AllIn(Tag(s, inBody)) <==> inBody || AllSpace(s)
  {
    if AllIn(Tag(s, inBody)) && !inBody {
      forall i | 0 <= i < |s|
        ensures IsSpace(s[i])
      {
        assert Tag(s, inBody)[i] == Mark(s[i], inBody, Plain);
      }
    }
  }

  lemma AllInSolid(s: string, i: nat, inBody: bool)
    requires i < |s| && !IsSpace(s[i])
    ensures AllIn(Tag(s, inBody)) <==> inBody
  {
    AllInTag(s, inBody);
  }

  lemma AllInHead(kw: string, gap: string, header: string, inBody: bool)
    ensures AllIn(Tag(Head(kw, gap, header), inBody)) <==> inBody
  {
    AllInSolid(Head(kw, gap, header), |kw + gap|, inBody);
  }

  lemma AllInWalk(s: string, h: Held, r: Reading)
    ensures AllIn(Along(Walk(s, h), r).marks) <==> (h.depth > 0 || AllSpace(s)) && AllIn(r.marks)
  {
    AllInTag(s, h.depth > 0);
    AllInConcat(Tag(s, h.depth > 0), r.marks);
  }

  lemma AllInBraced(space: string, body: Java, loop: bool, level: nat, h: Held)
    requires Right(body, true) && Closed(h, level + 1) && h.depth >= 0
    ensures AllIn(ReadBraced(space, body, loop, level, h).marks) <==> h.depth > 0
    decreases body, 3
  {
    hide AllIn, Tag, Read, AllSpace;
    var inner := h.(depth := h.depth + if loop then 1 else 0);
    var r := Read(body, level + 1, inner);
    OpenMore(inner, level + 1, 0);
    ReadHeld(body, level + 1, inner, 0);
    AllInIff(body, level + 1, inner, 0);
    AllInTag(space, h.depth > 0);
    AllInSolid("{", 0, h.depth > 0);
    AllInSolid("}", 0, r.held.depth > 0);
    AllInConcat(r.marks, Tag("}", r.held.depth > 0));
    AllInConcat(Tag("{", h.depth > 0), r.marks + Tag("}", r.held.depth > 0));
    AllInConcat(Tag(space, h.depth > 0), Tag("{", h.depth > 0) + (r.marks + Tag("}", r.held.depth > 0)));
  }

  lemma AllInTail(tail: Tail, h: Held)
    requires h.depth >= 0
    ensures AllIn(ReadTail(tail, h).marks) <==> h.depth > 0
  {
    hide AllIn, Tag, Head, AllSpace;
    var head := Tag(Head("while", tail.gap, Show(tail.header)), h.depth > 0);
    var end := Tag(tail.space + ";", h.depth + 1 > 0);
    AllInTag(tail.mid, h.depth > 0);
    AllInHead("while", tail.gap, Show(tail.header), h.depth > 0);
    AllInTag(tail.space + ";", h.depth + 1 > 0);
    AllInConcat(head, end);
    AllInConcat(Tag(tail.mid, h.depth > 0), head + end);
  }

  lemma AllInDo(t: Java, level: nat, h: Held, n: nat)
    requires t.Do? && Right(t.body, true) && Closed(h, level) && h.depth >= 0
    ensures AllIn(ReadFirst(t, level, Open(h, level, n)).marks) <==> h.depth > 0 || Covers(FirstSemis(t), n)
    decreases t, 0
  {
    hide AllIn, Tag, Read, AllSpace, ReadBraced, Walk, Along, ReadTail, Right;
    var o := Open(h, level, n);
    OpenMore(h, level, n);
    var r := if t.braced then ReadBraced(t.space, t.body, true, level, o)
             else Along(Walk(t.space, o), Read(t.body, level, o));
    AllInWalk("do", o, Along(r, ReadTail(t.tail, r.held)));
    assert !AllSpace("do") by { NotSpace("do"); }
    AllInAlong(r, ReadTail(t.tail, r.held));
    if t.braced {
      ReadBracedHeld(t.space, t.body, true, level, o);
      AllInBraced(t.space, t.body, true, level, o);
    } else {
      SemisSound(t.body);
      ReadHeld(t.body, level, h, n);
      AllInIff(t.body, level, h, n);
      AllInWalk(t.space, o, Read(t.body, level, o));
      AlongHeld(Walk(t.space, o), Read(t.body, level, o));
    }
    AllInTail(t.tail, r.held);
  }

  lemma NotSpace(s: string)
    requires s != "" && 'a' <= s[0] <= 'z'
    ensures !AllSpace(s)
  {
    assert !IsSpace(s[0]);
  }

  lemma AllInAlong(a: Reading, b: Reading)
    ensures AllIn(Along(a, b).marks) <==> AllIn(a.marks) && AllIn(b.marks)
  {
    AllInConcat(a.marks, b.marks);
  }

  lemma AllInForEach(t: Java, level: nat, h: Held, n: nat)
    requires t.ForEach? && Right(t.args, true) && Closed(h, level) && h.depth >= 0
    ensures AllIn(ReadFirst(t, level, Open(h, level, n)).marks) <==> h.depth > 0 || Covers(FirstSemis(t), n)
    decreases t, 0
  {
    hide AllIn, Tag, Read, AllSpace, Walk, Along, Open, Word, SemisOf, Covers, Right, Closed;
    var o, d, a := Open(h, level, n), h.(depth := h.depth + 1), SemisOf(t.args);
    var m := Minus(n, a.own);
    OpenDeeper(h, level, n);
    OpenDeeper(h, level, m);
    ReadHeld(t.args, level, d, n);
    AllInIff(t.args, level, d, n);
    var r := Read(t.args, level, o.(depth := o.depth + 1));
    var out := r.held.(depth := r.held.depth - 1);
    AllInWalk(Word(t.gap), o, Along(r, Walk(")", out)));
    ForEachSolid(t.gap);
    AllInAlong(r, Walk(")", out));
    AllInParen(out);
    OpenDepth(h, level, n);
    OpenDepth(h, level, m);
    CoversArgs(a, n);
  }

  lemma ForEachSolid(gap: string)
    ensures !AllSpace(Word(gap))
  {
    NotSpace(Word(gap));
  }

  lemma CoversArgs(a: Semis, n: nat)
    ensures Covers(Both(SOLID, Both(a, SOLID)), n) <==> n > 0 && Minus(n, a.own) > 0
  {
  }

  lemma OpenDepth(h: Held, level: nat, n: nat)
    ensures Open(h, level, n).depth == h.depth + n
  {
  }

  lemma AllInParen(h: Held)
    ensures AllIn(Walk(")", h).marks) <==> h.depth > 0
  {
    AllInSolid(")", 0, h.depth > 0);
  }

  lemma AllInClause(t: Java, level: nat, h: Held, n: nat)
    requires t.Clause? && Right(t.head, true) && Right(t.body, true) && Closed(h, level) && h.depth >= 0
    ensures AllIn(ReadFirst(t, level, Open(h, level, n)).marks) <==> h.depth > 0 || Covers(FirstSemis(t), n)
    decreases t, 0
  {
    hide AllIn, Tag, Read, AllSpace, Walk, Along, Open, SemisOf, Covers, Right, Closed, StartsClause;
    var o, word := Open(h, level, n), t.lead + t.word;
    var m := Minus(n, SemisOf(t.head).own);
    ReadHeld(t.head, level, h, n);
    AllInIff(t.head, level, h, n);
    AllInIff(t.body, level, h, m);
    SemisSound(t.head);
    SemisSound(t.body);
    CoversBoth(SemisOf(t.head), SemisOf(t.body), n);
    CoversBoth(SOLID, Both(SemisOf(t.head), SemisOf(t.body)), n);
    CoversSolid(n);
    var r := Read(t.head, level, o);
    AllInWalk(word, o, Along(r, Read(t.body, level, r.held)));
    assert !AllSpace(word) by { WordSolid(t.lead, t.word); }
    AllInAlong(r, Read(t.body, level, r.held));
    OpenDepth(h, level, n);
  }

  lemma CoversSolid(n: nat)
    ensures Covers(SOLID, n) <==> n > 0
  {
  }

  lemma WordSolid(lead: string, word: ClauseWord)
    ensures !AllSpace(lead + word)
  {
    assert word != "" && 'a' <= word[0] <= 'z';
    assert (lead + word)[|lead|] == word[0];
  }

  lemma AllInLoop(t: Java, level: nat, h: Held, n: nat)
    requires t.Loop? && Right(t.body, true) && Closed(h, level) && h.depth >= 0
    ensures AllIn(ReadFirst(t, level, Open(h, level, n)).marks) <==> h.depth > 0 || Covers(FirstSemis(t), n)
    decreases t, 0
  {
    hide AllIn, Tag, Read, ReadBraced, Head, Open, Right, Walk, Along;
    var o := Open(h, level, n);
    OpenMore(h, level, n);
    OpenDepth(h, level, n);
    AllInBraced(t.space, t.body, true, level, o);
    AllInHeadWalk(t.kw, t.gap, Show(t.header), o);
    AllInAlong(Walk(Head(t.kw, t.gap, Show(t.header)), o), ReadBraced(t.space, t.body, true, level, o));
    CoversSolid(n);
  }

  lemma AllInHeadWalk(kw: string, gap: string, header: string, h: Held)
    ensures AllIn(Walk(Head(kw, gap, header), h).marks) <==> h.depth > 0
  {
    AllInHead(kw, gap, header, h.depth > 0);
  }

  lemma AllInBrief(t: Java, level: nat, h: Held, n: nat)
    requires t.Brief? && Right(t.body, true) && SemisOf(t.body).own >= 1 && Closed(h, level) && h.depth >= 0
    ensures AllIn(ReadFirst(t, level, Open(h, level, n)).marks) <==> h.depth > 0 || Covers(FirstSemis(t), n)
    decreases t, 0
  {
    hide AllIn, Tag, Read, Head, Open, Right, Walk, Along, Pushed, SemisOf;
    var o := Open(h, level, n);
    var p := Pushed(o, level);
    OpenMore(h, level, n);
    OpenDepth(h, level, n);
    OpenDepth(h, level, n + 1);
    AllInHeadWalk(t.kw, t.gap, Show(t.header), o);
    AllInWalk(t.space, p, Read(t.body, level, p));
    AllInAlong(Walk(Head(t.kw, t.gap, Show(t.header)), o), Along(Walk(t.space, p), Read(t.body, level, p)));
    AllInIff(t.body, level, h, n + 1);
    SemisSound(t.body);
  }

  lemma AllInBlock(t: Java, level: nat, h: Held, n: nat)
    requires t.Block? && Right(t.body, true) && Closed(h, level) && h.depth >= 0
    ensures AllIn(ReadFirst(t, level, Open(h, level, n)).marks) <==> h.depth > 0 || Covers(FirstSemis(t), n)
    decreases t, 0
  {
    hide AllIn, Read, ReadBraced, Open, Right;
    OpenMore(h, level, n);
    OpenDepth(h, level, n);
    AllInBraced("", t.body, false, level, Open(h, level, n));
    CoversSolid(n);
  }

  lemma AllInFirst(t: Java, level: nat, h: Held, n: nat)
    requires !t.End? && Right(t, true) && Closed(h, level) && h.depth >= 0
    ensures AllIn(ReadFirst(t, level, Open(h, level, n)).marks) <==> h.depth > 0 || Covers(FirstSemis(t), n)
    decreases t, 1
  {
    hide AllIn, Tag, AllSpace, Open, Right, Closed;
    RightParts(t, true);
    OpenDepth(h, level, n);
    match t
    case Text(s, _) => AllInTag(s, h.depth + n > 0);
    case Semi(_) => AllInSolid(";", 0, h.depth + n > 0);
    case Block(_, _) => AllInBlock(t, level, h, n);
    case Loop(_, _, _, _, _, _) => AllInLoop(t, level, h, n);
    case Brief(_, _, _, _, _, _) => AllInBrief(t, level, h, n);
    case Do(_, _, _, _, _) => AllInDo(t, level, h, n);
    case ForEach(_, _, _) => AllInForEach(t, level, h, n);
    case Clause(_, _, _, _, _) => AllInClause(t, level, h, n);
  }

  /** With `n` loops held open over text that stands in no other loop, all of it is taken for loop body if and only
      if the loops last: if there are more of them than `;` left over, or as many and the last character is one. */
  lemma {:induction false} AllInIff(t: Java, level: nat, h: Held, n: nat)
    requires Right(t, true) && Closed(h, level) && h.depth >= 0
    ensures AllIn(Read(t, level, Open(h, level, n)).marks) <==> h.depth > 0 || Covers(SemisOf(t), n)
    decreases t, 2
  {
    hide AllIn, ReadFirst, FirstSemis, Covers, Open, Right, Closed;
    if t.End? {
      assert AllIn([]) by { NoneIn(); }
      CoversBlank(n);
    } else {
      var m := Minus(n, FirstSemis(t).own);
      RightParts(t, true);
      ReadFirstHeld(t, level, h, n);
      AllInFirst(t, level, h, n);
      AllInIff(t.rest, level, h, m);
      FirstSemisSound(t);
      SemisSound(t.rest);
      CoversBoth(FirstSemis(t), SemisOf(t.rest), n);
      AllInAlong(ReadFirst(t, level, Open(h, level, n)), Read(t.rest, level, Open(h, level, m)));
    }
  }

  lemma NoneIn()
    ensures AllIn([])
  {
  }

  lemma CoversBlank(n: nat)
    ensures Covers(Semis(0, false, true), n)
  {
  }

  // --- the statements of the language ---

  lemma JavaParts(t: Java, before: Java)
    requires !t.End? && IsJava(t, before)
    ensures IsJava(t.rest, t)
    ensures t.ForEach? ==> IsExpression(t.args, false) && IsJava(t.args, End)
    ensures t.Clause? ==> IsJava(t.head, End)
  {
    hide ClauseFits, IsStatement;
  }

  lemma {:induction false} ExpressionSemis(t: Java, before: Java)
    requires IsExpression(t, false) && IsJava(t, before)
    ensures SemisOf(t).own == 0
  {
    hide IsJava, SemisOf;
    if t.End? {
      NoSemis(t);
    } else {
      JavaParts(t, before);
      ExpressionSemis(t.rest, t);
      if t.ForEach? {
        ExpressionSemis(t.args, End);
      }
      PieceSemis(t);
    }
  }

  /** An expression statement has one `;`, its last character: a loop without braces over one is read right. */
  lemma {:induction false} SimpleSemis(t: Java, before: Java)
    requires IsSimple(t) && IsJava(t, before)
    ensures SemisOf(t).own == 1 && SemisOf(t).last
  {
    hide IsJava, IsLabel, SemisOf;
    JavaParts(t, before);
    if t.Semi? {
      OneSemi(t);
    } else {
      SimpleSemis(t.rest, t);
      if t.ForEach? {
        ExpressionSemis(t.args, End);
      }
      PieceSemis(t);
      SemisSound(t.rest);
    }
  }

  lemma OneSemi(t: Java)
    requires t.Semi? && t.rest.End?
    ensures SemisOf(t) == Semis(1, true, false)
  {
  }

  /** Pieces of an expression have no `;` left over. */
  lemma PieceSemis(t: Java)
    requires t.Text? || t.Block? || (t.ForEach? && SemisOf(t.args).own == 0)
    ensures var s, r := SemisOf(t), SemisOf(t.rest);
      s.own == r.own && (!r.blank ==> s.last == r.last)
  {
    hide AllSpace;
  }

  /** A block, a loop with braces, or clauses over blocks, and no resources. */
  predicate IsBraced(t: Java) {
    || t.End?
    || ((t.Block? || t.Loop?) && t.rest.End?)
    || (t.Clause? && t.body.Block? && t.body.rest.End? && IsExpression(t.head, false) && IsBraced(t.rest))
  }

  /** A loop with braces, or an `if`, `switch`, `synchronized` or `try` that has braces everywhere, has no `;` left over:
      a loop without braces over one stays open. */
  lemma {:induction false} BracedSemis(t: Java, before: Java)
    requires IsBraced(t) && IsJava(t, before)
    ensures SemisOf(t).own == 0
  {
    hide IsJava, SemisOf, IsExpression;
    if t.Clause? {
      JavaParts(t, before);
      ExpressionSemis(t.head, End);
      BracedSemis(t.rest, t);
      NoSemis(t.body);
      ClauseSemis(t);
    } else {
      NoSemis(t);
    }
  }

  lemma NoSemis(t: Java)
    requires t.End? || ((t.Block? || t.Loop?) && t.rest.End?)
    ensures SemisOf(t).own == 0
  {
  }

  lemma ClauseSemis(t: Java)
    requires t.Clause?
    ensures SemisOf(t).own == SemisOf(t.head).own + SemisOf(t.body).own + SemisOf(t.rest).own
  {
  }
}
