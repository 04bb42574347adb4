// Five short programs the loop scanner misreads, one for each half of each condition in `JavaBodies`, and one it reads
// right: the text, the lines of its loop bodies, and the lines found. Each is shown to be a program, and the lines found
// are those of the scanner's run from its start to the end of the text.
module JavaMisreads {
  import opened Strings
  import opened JavaLoops
  import opened JavaTrees
  import opened JavaScan
  import opened JavaLegible
  import JavaSemis

  /** The tree reads as what it is, its loop bodies stand on the lines `bodies`, and the scanner finds `found`. */
  ghost predicate Misread(t: Java, code: string, bodies: set<nat>, found: set<nat>) {
    && WellFormed(t) && Show(t) == code
    && BodyLines(Marks(t, false), 1) == bodies
    && RunTo(code, Start, |code|).inside == found != bodies
  }

  const X := Text("x", End)

  /** One statement. */
  const Z_SEMI := Text("z", Semi(End))
  const Q_SEMI := Text("q", Semi(End))
  const IF_Y_BLOCK := Clause("", "if", Text("(y)", End), Block(Z_SEMI, End), End)

  const DO_TAIL := Do(true, "", Z_SEMI, Tail("\n", "", X, ""), End)
  const IF_BLOCK := Brief("for", "", X, "", IF_Y_BLOCK, Text("\nq", Semi(End)))
  const IF_ELSE := Brief("for", "", X, "",
                         Clause("", "if", Text("(y)", End), Z_SEMI, ELSE_Q), End)
  const DO_BARE := Do(false, "", Semi(End), Tail("\n", "", X, ""), End)

  lemma Misreads(t: Java, bodies: set<nat>, found: set<nat>)
    requires IsJava(t, End) && Legible(t, ' ') && found != bodies
    requires BodyLines(Marks(t, false), 1) == bodies && BodyLines(Read(t, 0, Held([], 0)).marks, 1) == found
    ensures Misread(t, Show(t), bodies, found)
  {
    ReadsAt(t, Show(t), 0, ' ');
    ScanFile(t);
  }

  // --- lines of text without line breaks ---

  lemma LinesOn(s: string, inBody: bool, rest: seq<Mark>, line: nat)
    requires '\n' !in s && s != [] && !IsSpace(s[0])
    ensures BodyLines(Tag(s, inBody) + rest, line) == (if inBody then {line} else {}) + BodyLines(rest, line)
  {
    OneLineTags(s, inBody, line);
    BodyLinesConcat(Tag(s, inBody), rest, line);
  }

  lemma LinesOver(inBody: bool, rest: seq<Mark>, line: nat)
    ensures BodyLines(Tag("\n", inBody) + rest, line) == BodyLines(rest, line + 1)
  {
    assert (Tag("\n", inBody) + rest)[1..] == rest;
  }

  /** Two stretches on line 1, and its end. */
  lemma TwoLines(s: string, r: string, a: bool, b: bool, n: bool, rest: seq<Mark>)
    requires '\n' !in s + r && s != "" && r != "" && !IsSpace(s[0]) && !IsSpace(r[0])
    ensures BodyLines(Tag(s, a) + (Tag(r, b) + (Tag("\n", n) + rest)), 1) == (if a || b then {1} else {}) + BodyLines(rest, 2)
  {
    hide BodyLines, Tag;
    LinesOn(s, a, Tag(r, b) + (Tag("\n", n) + rest), 1);
    LinesOn(r, b, Tag("\n", n) + rest, 1);
    LinesOver(n, rest, 1);
  }

  /** One on line 1, one on line 2. */
  lemma ThreeLines(r: string, u: string, b: bool, n: bool, c: bool, rest: seq<Mark>)
    requires '\n' !in r + u && r != "" && u != "" && !IsSpace(r[0]) && !IsSpace(u[0])
    ensures BodyLines(Tag(r, b) + (Tag("\n", n) + (Tag(u, c) + rest)), 1)
         == (if b then {1} else {}) + ((if c then {2} else {}) + BodyLines(rest, 2))
  {
    hide BodyLines, Tag;
    LinesOn(r, b, Tag("\n", n) + (Tag(u, c) + rest), 1);
    LinesOver(n, Tag(u, c) + rest, 1);
    LinesOn(u, c, rest, 2);
  }

  /** Two on line 1, one on line 2. */
  lemma FourLines(s: string, r: string, u: string, a: bool, b: bool, n: bool, c: bool, rest: seq<Mark>)
    requires '\n' !in s + r + u && s != "" && r != "" && u != ""
    requires !IsSpace(s[0]) && !IsSpace(r[0]) && !IsSpace(u[0])
    ensures BodyLines(Tag(s, a) + (Tag(r, b) + (Tag("\n", n) + (Tag(u, c) + rest))), 1)
         == (if a || b then {1} else {}) + ((if c then {2} else {}) + BodyLines(rest, 2))
  {
    hide BodyLines, Tag;
    TwoLines(s, r, a, b, n, Tag(u, c) + rest);
    LinesOn(u, c, rest, 2);
  }

  /** Nothing in a loop body, all on one line. */
  lemma {:induction false} NoneOn(m: seq<Mark>, rest: seq<Mark>, line: nat)
    requires forall i :: 0 <= i < |m| ==> m[i].c != '\n' && !m[i].inBody
    ensures BodyLines(m + rest, line) == BodyLines(rest, line)
  {
    if m == [] {
      assert m + rest == rest;
    } else {
      assert (m + rest)[1..] == m[1..] + rest;
      NoneOn(m[1..], rest, line);
    }
  }

  lemma XLines(kw: string, rest: seq<Mark>, line: nat)
    requires '\n' !in kw
    ensures BodyLines(HeadMarks(kw, "", X, false) + rest, line) == BodyLines(rest, line)
  {
    assert Marks(X, false) == Tag("x", false);
    NoneOn(HeadMarks(kw, "", X, false), rest, line);
  }

  // --- headers ---

  lemma OneBalanced(c: char)
    requires c != '(' && c != ')'
    ensures Balanced([c])
  {
    assert [c][..0] == [] && [c][..1] == [c];
  }

  lemma CharIsJava(kw: string, c: char)
    ensures HeaderIsJava(Text([c], End), kw)
  {
    assert IsJava(End, Text([c], End));
  }

  lemma XLegible(kw: string)
    requires kw == "for" || kw == "while"
    ensures LegibleHead(kw, "", X)
  {
    OneBalanced('x');
    assert Show(X) == "x";
  }

  lemma XIsJava(kw: string)
    ensures HeaderIsJava(X, kw)
  {
    CharIsJava(kw, 'x');
  }

  // --- a line break in front of the `while` of a `do` ---

  lemma DoTailShow()
    ensures Show(DO_TAIL) == First(DO_TAIL) == "do{z;}\nwhile(x);"
  {
    assert Show(Z_SEMI) == "z;";
    assert Braced("", Z_SEMI) == "{z;}";
    assert Show(X) == "x" && Head("while", "", "x") == "while(x)";
    hide Head, Braced;
    assert ShowTail(DO_TAIL.tail) == "\nwhile(x);";
  }

  lemma DoTailLegible()
    ensures Legible(DO_TAIL, ' ')
  {
    XLegible("while");
    hide LegibleHead;
    SimpleLegible('z', '{');
  }

  lemma DoTailJava()
    ensures IsJava(DO_TAIL, End)
  {
    XIsJava("while");
    assert IsJava(Z_SEMI, End);
  }

  lemma DoTailMarks()
    ensures Marks(DO_TAIL, false)
         == Tag("do{", false) + (Tag("z;}", true) + (Tag("\n", false) + (HeadMarks("while", "", X, false) + TagTail(";", false))))
  {
    assert Marks(Z_SEMI, true) == Tag("z;", true);
    hide HeadMarks;
    assert Marks(DO_TAIL, false) == FirstMarks(DO_TAIL, false);
  }

  lemma DoTailRead()
    ensures Read(DO_TAIL, 0, Held([], 0)).marks
         == Tag("do{", false) + (Tag("z;}", true) + (Tag("\n", false) + (Tag("while(x)", false) + (Tag(";", true) + []))))
  {
    var h := Held([], 0);
    TailReads(h);
    TagConcat("do", "{", false);
    TagConcat("z;", "}", true);
    DoBodyRead();
    hide Tag, Read, ReadTail, ReadBraced;
    assert ReadFirst(DO_TAIL, 0, h).marks
        == Tag("do", false) + ((Tag("{", false) + (Tag("z;", true) + Tag("}", true))) + ReadTail(DO_TAIL.tail, h).marks);
    ReadOnly(DO_TAIL, 0, h);
  }

  lemma DoBodyRead()
    ensures ReadBraced("", Z_SEMI, true, 0, Held([], 0))
         == Reading(Tag("{", false) + (Tag("z;", true) + Tag("}", true)), Held([], 0))
  {
    assert Read(Z_SEMI, 1, Held([], 1)) == Reading(Tag("z;", true), Held([], 1));
    assert Tag("", false) == [];
    hide Tag, Read;
  }

  lemma TailReads(h: Held)
    requires h.depth == 0
    ensures ReadTail(Tail("\n", "", X, ""), h)
         == Reading(Tag("\n", false) + (Tag("while(x)", false) + (Tag(";", true) + [])), h)
  {
    assert Show(X) == "x" && Head("while", "", "x") == "while(x)";
    assert "" + ";" == ";";
  }

  lemma ReadOnly(t: Java, level: nat, h: Held)
    requires !t.End? && t.rest.End?
    ensures Read(t, level, h) == ReadFirst(t, level, h)
  {
    hide ReadFirst;
  }

  lemma EndLines(line: nat)
    ensures BodyLines(TagTail(";", false), line) == BodyLines([], line) == {}
  {
    assert TagTail(";", false)[1..] == [];
  }

  lemma DoTailLines()
    ensures BodyLines(Marks(DO_TAIL, false), 1) == {1} && BodyLines(Read(DO_TAIL, 0, Held([], 0)).marks, 1) == {1, 2}
  {
    hide Marks, HeadMarks, Read, BodyLines, Tag, TagTail;
    DoTailMarks();
    DoTailRead();
    EndLines(2);
    TwoLines("do{", "z;}", false, true, false, HeadMarks("while", "", X, false) + TagTail(";", false));
    XLines("while", TagTail(";", false), 2);
    LinesOn(";", true, [], 2);
    FourLines("do{", "z;}", "while(x)", false, true, false, false, Tag(";", true) + []);
  }

  /** The line of the `while` is taken for a loop body: the condition of `JavaBodies.DoRightIff` fails. */
  lemma DoTailMisread()
    ensures Misread(DO_TAIL, "do{z;}\nwhile(x);", {1}, {1, 2})
  {
    hide Marks, Read, BodyLines, Show, First, FitsAt, IsJava, WordAt, Boundary, At, Misread;
    DoTailShow();
    DoTailJava();
    DoTailLegible();
    DoTailLines();
    assert 2 !in {1};
    Misreads(DO_TAIL, {1}, {1, 2});
  }

  // --- a `do` without braces ---

  lemma DoBareShow()
    ensures Show(DO_BARE) == First(DO_BARE) == "do;\nwhile(x);" && BodyOf(DO_BARE) == Show(Semi(End)) == ";"
  {
    assert Show(X) == "x" && Head("while", "", "x") == "while(x)";
    hide Head;
    assert ShowTail(DO_BARE.tail) == "\nwhile(x);";
  }

  lemma DoBareLegible()
    ensures Legible(DO_BARE, ' ') && IsJava(DO_BARE, End)
  {
    XLegible("while");
    XIsJava("while");
    hide LegibleHead, HeaderIsJava;
  }

  lemma DoBareMarks()
    ensures Marks(DO_BARE, false)
         == Tag("do", false) + (Tag(";", true) + (Tag("\n", false) + (HeadMarks("while", "", X, false) + TagTail(";", false))))
  {
    assert Marks(Semi(End), true) == Tag(";", true);
    hide HeadMarks;
    assert Marks(DO_BARE, false) == FirstMarks(DO_BARE, false);
  }

  lemma DoBareRead()
    ensures Read(DO_BARE, 0, Held([], 0)).marks
         == Tag("do", false) + (Tag(";", false) + (Tag("\n", false) + (Tag("while(x)", false) + (Tag(";", true) + []))))
  {
    var h := Held([], 0);
    assert Read(Semi(End), 0, h) == Reading(Tag(";", false), h);
    TailReads(h);
    assert Tag("", false) == [];
    hide Tag, Read, ReadTail;
    assert ReadFirst(DO_BARE, 0, h).marks == Tag("do", false) + (Tag(";", false) + ReadTail(DO_BARE.tail, h).marks);
    ReadOnly(DO_BARE, 0, h);
  }

  lemma DoBareLines()
    ensures BodyLines(Marks(DO_BARE, false), 1) == {1} && BodyLines(Read(DO_BARE, 0, Held([], 0)).marks, 1) == {2}
  {
    hide Marks, HeadMarks, Read, BodyLines, Tag, TagTail;
    DoBareMarks();
    DoBareRead();
    EndLines(2);
    TwoLines("do", ";", false, true, false, HeadMarks("while", "", X, false) + TagTail(";", false));
    XLines("while", TagTail(";", false), 2);
    LinesOn(";", true, [], 2);
    FourLines("do", ";", "while(x)", false, false, false, false, Tag(";", true) + []);
  }

  /** The body is not found, the line of the `while` is: the condition of `JavaBodies.BareDoRightIff` fails. */
  lemma DoBareMisread()
    ensures Misread(DO_BARE, "do;\nwhile(x);", {1}, {2})
  {
    hide Marks, Read, BodyLines, Show, First, FitsAt, IsJava, WordAt, Boundary, At, Misread, BareAt, AllQuiet, BodyOf;
    DoBareShow();
    DoBareLegible();
    DoBareLines();
    assert 2 !in {1};
    Misreads(DO_BARE, {1}, {2});
  }

  // --- a loop without braces over an `if` with braces ---

  function IfY(body: Java, rest: Java): Java {
    Clause("", "if", Text("(y)", End), body, rest)
  }

  lemma IfShow(body: Java, rest: Java)
    ensures Show(IfY(body, rest)) == "if(y)" + (Show(body) + Show(rest))
  {
    ShowSome();
    hide StartsClause;
    assert First(IfY(body, rest)) == "if(y)" + Show(body);
  }

  lemma IfMarks(body: Java, rest: Java, inBody: bool)
    ensures Marks(IfY(body, rest), inBody) == Tag("if(y)", inBody) + (Marks(body, inBody) + Marks(rest, inBody))
  {
    hide FirstMarks, Tag;
    IfFirstMarks(body, rest, inBody);
    assert Marks(IfY(body, rest), inBody) == FirstMarks(IfY(body, rest), inBody) + Marks(rest, inBody);
  }

  lemma IfFirstMarks(body: Java, rest: Java, inBody: bool)
    ensures FirstMarks(IfY(body, rest), inBody) == Tag("if(y)", inBody) + Marks(body, inBody)
  {
    hide Tag, Marks, StartsClause;
    TagConcat("if", "(y)", inBody);
    CondMarks(inBody);
    assert "" + "if" == "if" && "if" + "(y)" == "if(y)";
    assert FirstMarks(IfY(body, rest), inBody) == Tag("if", inBody) + (Tag("(y)", inBody) + Marks(body, inBody));
  }

  lemma CondMarks(inBody: bool)
    ensures Marks(Text("(y)", End), inBody) == Tag("(y)", inBody)
  {
  }

  lemma IfReads(body: Java, rest: Java, h: Held)
    ensures var r := Read(body, 0, h);
      Read(IfY(body, rest), 0, h) == Along(Walk("if(y)", h), Along(r, Read(rest, 0, r.held)))
  {
    hide ReadFirst, Walk, Along, Read;
    var r := Read(body, 0, h);
    IfReadFirst(body, rest, h);
    ReadOn(IfY(body, rest), 0, h);
    JavaSemis.AlongHeld(Walk("if(y)", h), r);
    AlongOn(Walk("if(y)", h), r, Read(rest, 0, r.held));
  }

  lemma IfReadFirst(body: Java, rest: Java, h: Held)
    ensures ReadFirst(IfY(body, rest), 0, h) == Along(Walk("if(y)", h), Read(body, 0, h))
  {
    var cond := Text("(y)", End);
    CondRead(h);
    hide Read, Walk, Along, StartsClause;
    var r := Read(body, 0, h);
    assert "" + "if" == "if";
    assert ReadFirst(IfY(body, rest), 0, h) == Along(Walk("if", h), Along(Walk("(y)", h), r));
    WalkTwo(h, r);
  }

  lemma CondRead(h: Held)
    ensures Read(Text("(y)", End), 0, h) == Walk("(y)", h) && Walk("(y)", h).held == h
  {
  }

  lemma WalkTwo(h: Held, r: Reading)
    ensures Along(Walk("if", h), Along(Walk("(y)", h), r)) == Along(Walk("if(y)", h), r)
  {
    TagConcat("if", "(y)", h.depth > 0);
  }

  lemma AlongOn(a: Reading, b: Reading, c: Reading)
    ensures Along(Along(a, b), c) == Along(a, Along(b, c))
  {
  }

  function ForX(body: Java, rest: Java): Java {
    Brief("for", "", X, "", body, rest)
  }

  lemma ForShow(body: Java, rest: Java)
    ensures Head("for", "", Show(X)) == "for(x)"
    ensures First(ForX(body, rest)) == "for(x)" + Show(body)
    ensures Show(ForX(body, rest)) == "for(x)" + (Show(body) + Show(rest))
  {
    assert Show(X) == "x";
    assert Head("for", "", "x") == "for(x)";
    hide Head;
    assert First(ForX(body, rest)) == "for(x)" + ("" + Show(body));
  }

  lemma ForMarks(body: Java, rest: Java)
    ensures Marks(ForX(body, rest), false) == HeadMarks("for", "", X, false) + (Marks(body, true) + Marks(rest, false))
  {
    hide HeadMarks, Marks, FirstMarks;
    MarksOn(ForX(body, rest));
    ForFirstMarks(body, rest);
  }

  lemma ForFirstMarks(body: Java, rest: Java)
    ensures FirstMarks(ForX(body, rest), false) == HeadMarks("for", "", X, false) + Marks(body, true)
  {
    assert Tag("", true) == [];
    hide HeadMarks, Marks, Tag;
    assert FirstMarks(ForX(body, rest), false) == HeadMarks("for", "", X, false) + ([] + Marks(body, true));
    assert [] + Marks(body, true) == Marks(body, true);
  }

  lemma ForReads(body: Java, rest: Java)
    ensures var r := Read(body, 0, Held([0], 1));
      Read(ForX(body, rest), 0, Held([], 0)).marks == Tag("for(x)", false) + (r.marks + Read(rest, 0, r.held).marks)
  {
    hide Read, Tag, ReadFirst;
    ForReadFirst(body, rest);
    ReadOn(ForX(body, rest), 0, Held([], 0));
  }

  lemma ForReadFirst(body: Java, rest: Java)
    ensures var r := Read(body, 0, Held([0], 1));
      ReadFirst(ForX(body, rest), 0, Held([], 0)) == Reading(Tag("for(x)", false) + r.marks, r.held)
  {
    ForShow(body, rest);
    assert Pushed(Held([], 0), 0) == Held([0], 1);
    assert Tag("", true) == [];
    hide Read, Tag, Head, Pushed, Show, First;
  }

  lemma ShowFirst(t: Java)
    requires !t.End?
    ensures Show(t) == First(t) + Show(t.rest)
  {
  }

  lemma IfBlockShow()
    ensures Show(Block(Z_SEMI, End)) == "{z;}" && Show(Text("(y)", End)) == "(y)" && Head("for", "", Show(X)) == "for(x)"
    ensures Show(IF_BLOCK) == "for(x)if(y){z;}\nq;" && First(IF_BLOCK) == "for(x)if(y){z;}"
  {
    ShowSome();
    hide Show, First, Head;
    IfShow(Block(Z_SEMI, End), End);
    assert Show(IF_Y_BLOCK) == "if(y){z;}";
    ForShow(IF_Y_BLOCK, IF_BLOCK.rest);
    assert "for(x)" + "if(y){z;}" == "for(x)if(y){z;}";
    assert "for(x)" + ("if(y){z;}" + "\nq;") == "for(x)if(y){z;}\nq;";
  }

  lemma ShowSome()
    ensures Show(End) == "" && Show(Text("(y)", End)) == "(y)" && Show(X) == "x" && Show(Text(" ", End)) == " "
    ensures Show(Z_SEMI) == "z;" && Show(Q_SEMI) == "q;" && Show(Block(Z_SEMI, End)) == "{z;}"
    ensures Show(Text("\nq", Semi(End))) == "\nq;"
  {
    assert Show(Z_SEMI) == "z;";
  }

  lemma ForLegible(body: Java, rest: Java)
    requires Legible(body, ')') && StartsSolid(Show(body)) && forall c: char :: Legible(rest, c)
    ensures Legible(ForX(body, rest), ' ')
  {
    XLegible("for");
    hide LegibleHead, Show, First;
  }

  lemma IfLegible(body: Java, rest: Java)
    requires Legible(body, ')') && forall c: char :: Legible(rest, c)
    ensures Legible(IfY(body, rest), ')') && StartsSolid(Show(IfY(body, rest)))
  {
    assert AllOrdinary("(y)");
    hide Show, StartsClause, AllOrdinary, First;
    IfShow(body, rest);
    ShowSome();
    TextLegible("(y)", End, 'f');
  }

  lemma TextLegible(s: string, rest: Java, before: char)
    requires AllOrdinary(s) && Legible(rest, Ending(s, before))
    ensures Legible(Text(s, rest), before)
  {
  }

  lemma SimpleLegible(c: char, before: char)
    requires Ordinary(c)
    ensures Legible(Text([c], Semi(End)), before)
  {
    assert AllOrdinary([c]);
    SemiLegible(Ending([c], before));
    TextLegible([c], Semi(End), before);
  }

  lemma SemiLegible(before: char)
    ensures Legible(Semi(End), before)
  {
  }

  lemma IfBlockLegible()
    ensures Legible(IF_BLOCK, ' ')
  {
    assert AllOrdinary("\nq");
    hide AllOrdinary, Show, First;
    SimpleLegible('z', '{');
    assert Legible(Block(Z_SEMI, End), ')');
    forall c: char
      ensures Legible(IF_BLOCK.rest, c)
    {
      TextLegible("\nq", Semi(End), c);
    }
    forall c: char
      ensures Legible(End, c)
    {
    }
    IfLegible(Block(Z_SEMI, End), End);
    ForLegible(IF_Y_BLOCK, IF_BLOCK.rest);
  }

  lemma IfBlockJava()
    ensures IsJava(IF_BLOCK, End)
  {
    IfHead();
    XIsJava("for");
    assert IsJava(Z_SEMI, End) && IsJava(Block(Z_SEMI, End), End);
    assert IsJava(Text("(y)", End), End);
    hide Parenthesised;
    assert ClauseFits("if", Text("(y)", End), Block(Z_SEMI, End), End);
    assert IsJava(IF_Y_BLOCK, End);
    assert IsJava(IF_BLOCK.rest, IF_BLOCK);
  }

  lemma IfHead()
    ensures Parenthesised(Show(Text("(y)", End)))
  {
    OneBalanced('y');
    assert AllSpace("") && Balanced("y");
    assert Show(Text("(y)", End)) == "" + "(" + "y" + ")" + "";
  }

  lemma IfBlockMarks()
    ensures Marks(IF_BLOCK, false)
         == HeadMarks("for", "", X, false) + (Tag("if(y){z;}", true) + (Tag("\n", false) + (Tag("q;", false) + [])))
  {
    assert Marks(Z_SEMI, true) == Tag("z;", true);
    assert Marks(Block(Z_SEMI, End), true) == Tag("{z;}", true);
    assert Marks(IF_BLOCK.rest, false) == Tag("\n", false) + (Tag("q;", false) + []);
    assert Marks(End, true) == [];
    TagConcat("if(y)", "{z;}", true);
    hide Marks, HeadMarks, Tag;
    IfMarks(Block(Z_SEMI, End), End, true);
    ForMarks(IF_Y_BLOCK, IF_BLOCK.rest);
  }

  lemma IfRead(h: Held)
    requires h == Held([0], 1)
    ensures Read(IF_Y_BLOCK, 0, h) == Reading(Tag("if(y){z;}", true), h)
  {
    assert Read(Z_SEMI, 1, h) == Reading(Tag("z;", true), h);
    assert Read(Block(Z_SEMI, End), 0, h) == Reading(Tag("{z;}", true), h);
    assert Read(End, 0, h) == Reading([], h);
    TagConcat("if(y)", "{z;}", true);
    hide Read, Tag;
    IfReads(Block(Z_SEMI, End), End, h);
  }

  lemma IfBlockRead()
    ensures Read(IF_BLOCK, 0, Held([], 0)).marks
         == Tag("for(x)", false) + (Tag("if(y){z;}", true) + (Tag("\n", true) + (Tag("q;", true) + [])))
  {
    var h := Held([0], 1);
    assert Read(IF_BLOCK.rest, 0, h).marks == Tag("\n", true) + (Tag("q;", true) + []);
    hide Read, Tag;
    IfRead(h);
    ForReads(IF_Y_BLOCK, IF_BLOCK.rest);
  }

  lemma IfBlockLines()
    ensures BodyLines(Marks(IF_BLOCK, false), 1) == {1} && BodyLines(Read(IF_BLOCK, 0, Held([], 0)).marks, 1) == {1, 2}
  {
    hide Marks, HeadMarks, Read, BodyLines, Tag;
    IfBlockMarks();
    IfBlockRead();
    EndLines(2);
    XLines("for", Tag("if(y){z;}", true) + (Tag("\n", false) + (Tag("q;", false) + [])), 1);
    ThreeLines("if(y){z;}", "q;", true, false, false, []);
    FourLines("for(x)", "if(y){z;}", "q;", false, true, true, true, []);
  }

  /** The statement behind the loop is taken for its body: no `;` of the `if` is left over for the loop, against the
      first half of `JavaBodies.BriefRightIff`. */
  lemma IfBlockMisread()
    ensures Misread(IF_BLOCK, "for(x)if(y){z;}\nq;", {1}, {1, 2})
  {
    hide Marks, Read, BodyLines, Show, First, FitsAt, IsJava, WordAt, Boundary, At, Misread, BareAt, AllQuiet, Head;
    IfBlockShow();
    IfBlockJava();
    IfBlockLegible();
    IfBlockLines();
    assert 2 !in {1};
    Misreads(IF_BLOCK, {1}, {1, 2});
  }

  // --- a loop without braces over an `if` with an `else` ---

  const ELSE_Q := Clause("\n", "else", Text(" ", End), Q_SEMI, End)

  lemma IfElseShow()
    ensures Show(Z_SEMI) == "z;" && Show(Text("(y)", End)) == "(y)" && Head("for", "", Show(X)) == "for(x)"
    ensures Show(ELSE_Q) == First(ELSE_Q) == "\nelse q;" && Show(Text(" ", End)) == " "
    ensures Show(IF_ELSE) == First(IF_ELSE) == "for(x)if(y)z;\nelse q;"
  {
    ShowSome();
    ElseShow();
    hide Show, First, Head;
    IfShow(Z_SEMI, ELSE_Q);
    assert "if(y)" + ("z;" + "\nelse q;") == "if(y)z;\nelse q;";
    ForShow(IfY(Z_SEMI, ELSE_Q), End);
    assert "for(x)" + "if(y)z;\nelse q;" == "for(x)if(y)z;\nelse q;";
  }

  lemma ElseShow()
    ensures Show(ELSE_Q) == First(ELSE_Q) == "\nelse q;"
  {
    ShowSome();
    hide StartsClause;
    assert "\n" + "else" == "\nelse" && " " + "q;" == " q;" && "\nelse" + " q;" == "\nelse q;";
  }

  lemma IfElseLegible()
    ensures Legible(IF_ELSE, ' ')
  {
    SimpleLegible('z', ')');
    forall c: char
      ensures Legible(ELSE_Q, c) && Legible(End, c)
    {
      ElseLegible(c);
    }
    hide Legible, Show;
    IfLegible(Z_SEMI, ELSE_Q);
    ForLegible(IfY(Z_SEMI, ELSE_Q), End);
  }

  lemma ElseLegible(c: char)
    ensures Legible(ELSE_Q, c)
  {
    assert AllOrdinary(" ");
    ShowSome();
    SimpleLegible('q', ' ');
    TextLegible(" ", End, 'e');
    hide StartsClause, Show, AllOrdinary, First;
  }

  lemma OneLabel(c: char)
    requires c != ':' && !IsSpace(c)
    ensures !IsLabel([c])
  {
    assert RStrip([c]) == [c];
  }

  lemma SimpleJava(c: char)
    requires c != ':' && !IsSpace(c)
    ensures IsStatement(Text([c], Semi(End))) && IsJava(Text([c], Semi(End)), End)
  {
    OneLabel(c);
    assert IsSimple(Semi(End)) && IsSimple(Text([c], Semi(End)));
    assert IsJava(Semi(End), Text([c], Semi(End)));
  }

  lemma ElseClause(t: Java)
    requires t.Clause? && t.word == "if" && !EndsInIf(t.body) && IsStatement(Q_SEMI)
    ensures ClauseFits("else", Text(" ", End), Q_SEMI, t)
  {
    hide IsStatement, IsLabel, Parenthesised, EndsInIf;
    assert Show(Text(" ", End)) == " ";
    assert IsExpression(Text(" ", End), false) && AllSpace(" ");
    assert "else"[0] != "try"[0] && "else"[0] != "catch"[0] && "else"[0] != "finally"[0];
  }

  lemma ElseJava(t: Java)
    requires t.Clause? && t.word == "if" && !EndsInIf(t.body)
    ensures IsJava(ELSE_Q, t)
  {
    hide IsStatement, ClauseFits, EndsInIf;
    SimpleJava('q');
    ElseClause(t);
    assert IsJava(Text(" ", End), End);
  }

  lemma IfElseJava()
    ensures IsJava(IF_ELSE, End)
  {
    var t, cond := IfY(Z_SEMI, ELSE_Q), Text("(y)", End);
    IfHead();
    XIsJava("for");
    SimpleJava('z');
    ElseJava(t);
    hide IsStatement, IsLabel, Parenthesised;
    assert ClauseFits("if", cond, Z_SEMI, End) && IsJava(cond, End);
    assert IsJava(t, End);
    ChainStatement();
    assert IsJava(IF_ELSE, End);
  }

  lemma ChainStatement()
    ensures IsStatement(IfY(Z_SEMI, ELSE_Q))
  {
    assert IsChain(ELSE_Q);
    assert IsChain(IfY(Z_SEMI, ELSE_Q));
  }

  lemma IfElseMarks()
    ensures Marks(IF_ELSE, false)
         == HeadMarks("for", "", X, false) + (Tag("if(y)z;", true) + (Tag("\n", true) + (Tag("else q;", true) + [])))
  {
    assert Marks(Z_SEMI, true) == Tag("z;", true);
    ElseMarks();
    assert Marks(End, false) == [];
    TagConcat("if(y)", "z;", true);
    hide Marks, HeadMarks, Tag;
    IfMarks(Z_SEMI, ELSE_Q, true);
    ForMarks(IfY(Z_SEMI, ELSE_Q), End);
  }

  lemma ElseMarks()
    ensures Marks(ELSE_Q, true) == Tag("\n", true) + Tag("else q;", true)
  {
    assert Marks(Q_SEMI, true) == Tag("q;", true);
    assert Marks(ELSE_Q, true) == Tag("\nelse q;", true);
    TagConcat("\n", "else q;", true);
  }

  lemma ElseRead(h: Held)
    requires h == Held([], 0)
    ensures Read(ELSE_Q, 0, h) == Reading(Tag("\n", false) + (Tag("else q;", false) + []), h)
  {
    assert Read(Q_SEMI, 0, h) == Reading(Tag("q;", false), h);
    assert Read(Text(" ", End), 0, h) == Reading(Tag(" ", false), h);
  }

  lemma IfElseRead()
    ensures Read(IF_ELSE, 0, Held([], 0)).marks
         == Tag("for(x)", false) + (Tag("if(y)z;", true) + (Tag("\n", false) + (Tag("else q;", false) + [])))
  {
    var h, p := Held([], 0), Held([0], 1);
    assert Read(Z_SEMI, 0, p) == Reading(Tag("z;", true), h);
    assert Read(End, 0, h) == Reading([], h);
    TagConcat("if(y)", "z;", true);
    hide Read, Tag;
    ElseRead(h);
    IfReads(Z_SEMI, ELSE_Q, p);
    ForReads(IfY(Z_SEMI, ELSE_Q), End);
    var e := Tag("\n", false) + (Tag("else q;", false) + []);
    assert Tag("if(y)", true) + (Tag("z;", true) + e) == Tag("if(y)z;", true) + e;
    assert (Tag("if(y)z;", true) + e) + [] == Tag("if(y)z;", true) + e;
  }

  lemma IfElseLines()
    ensures BodyLines(Marks(IF_ELSE, false), 1) == {1, 2} && BodyLines(Read(IF_ELSE, 0, Held([], 0)).marks, 1) == {1}
  {
    hide Marks, HeadMarks, Read, BodyLines, Tag;
    IfElseMarks();
    IfElseRead();
    EndLines(2);
    XLines("for", Tag("if(y)z;", true) + (Tag("\n", true) + (Tag("else q;", true) + [])), 1);
    ThreeLines("if(y)z;", "else q;", true, true, true, []);
    FourLines("for(x)", "if(y)z;", "else q;", false, true, false, false, []);
  }

  /** The `else` is lost: the body has two `;` left over, against the second half of `JavaBodies.BriefRightIff`. */
  lemma IfElseMisread()
    ensures Misread(IF_ELSE, "for(x)if(y)z;\nelse q;", {1, 2}, {1})
  {
    hide Marks, Read, BodyLines, Show, First, FitsAt, IsJava, WordAt, Boundary, At, Misread, BareAt, AllQuiet, Head;
    IfElseShow();
    IfElseJava();
    IfElseLegible();
    IfElseLines();
    assert 2 in {1, 2} && 2 !in {1};
    Misreads(IF_ELSE, {1, 2}, {1});
  }

  // --- a loop in a lambda in the header of another ---

  const FOR_BODY := Text("\na", Semi(Text("\n", End)))
  const FOR_Y := Loop("for", "", Text("y", End), "", FOR_BODY, End)
  const LAMBDA := Text("g(()->", Block(FOR_Y, Text(")", End)))
  const FOR_IN_HEADER := Brief("while", "", LAMBDA, "", Z_SEMI, End)

  lemma ForShows()
    ensures Show(FOR_BODY) == "\na;\n" && Show(Text("\n", End)) == "\n" && Show(FOR_BODY.rest) == ";\n"
    ensures Head("for", "", Show(Text("y", End))) == "for(y)"
    ensures First(FOR_Y) == Show(FOR_Y) == "for(y){\na;\n}"
  {
    assert Show(Text("y", End)) == "y" && Show(Text("\n", End)) == "\n";
    assert Show(FOR_BODY.rest) == ";\n" && Head("for", "", "y") == "for(y)";
    assert Show(FOR_BODY) == "\na;\n";
    hide Head;
    assert Braced("", FOR_BODY) == "{\na;\n}";
    hide Braced;
    assert "for(y)" + "{\na;\n}" == "for(y){\na;\n}";
  }

  lemma LambdaShows()
    ensures Show(Text(")", End)) == ")" && |First(LAMBDA)| == 6 && |First(LAMBDA.rest)| == 14
    ensures Show(LAMBDA) == "g(()->{for(y){\na;\n}})" && Show(LAMBDA.rest) == "{for(y){\na;\n}})"
  {
    ForShows();
    assert Show(Text(")", End)) == ")";
    hide Show, Head;
    assert First(LAMBDA.rest) == "" + ("{" + ("for(y){\na;\n}" + "}")) == "{for(y){\na;\n}}";
    ShowFirst(LAMBDA.rest);
    ShowFirst(LAMBDA);
    assert "{for(y){\na;\n}}" + ")" == "{for(y){\na;\n}})";
    assert "g(()->" + "{for(y){\na;\n}})" == "g(()->{for(y){\na;\n}})";
  }

  lemma HeaderShows()
    ensures Head("while", "", Show(LAMBDA)) == "while(g(()->{for(y){\na;\n}}))"
    ensures First(FOR_IN_HEADER) == Show(FOR_IN_HEADER) == "while(g(()->{for(y){\na;\n}}))z;"
  {
    hide Show, Head, First;
    LambdaShows();
    ShowSome();
    HeadShows();
    ShowFirst(FOR_IN_HEADER);
    FirstBrief(FOR_IN_HEADER);
    assert "" + "z;" == "z;";
    assert "while(g(()->{for(y){\na;\n}}))" + "z;" == "while(g(()->{for(y){\na;\n}}))z;";
    assert First(FOR_IN_HEADER) + "" == First(FOR_IN_HEADER);
  }

  lemma FirstBrief(t: Java)
    requires t.Brief?
    ensures First(t) == Head(t.kw, t.gap, Show(t.header)) + (t.space + Show(t.body))
  {
  }

  lemma HeadShows()
    ensures Head("while", "", "g(()->{for(y){\na;\n}})") == "while(g(()->{for(y){\na;\n}}))"
  {
    assert "while" + "" + "(" == "while(" && "while(" + "g(()->{for(y){\na;\n}})" == "while(g(()->{for(y){\na;\n}})";
  }

  lemma {:induction false} BalanceTwo(a: string, b: string)
    ensures Balance(a + b) == Balance(a) + Balance(b)
    decreases |b|
  {
    if b == [] {
      assert a + b == a;
    } else {
      var n := |b| - 1;
      assert (a + b)[..|a + b| - 1] == a + b[..n];
      BalanceTwo(a, b[..n]);
    }
  }

  lemma BalancedTwo(a: string, b: string)
    requires Balanced(a) && Balanced(b)
    ensures Balanced(a + b)
  {
    BalanceTwo(a, b);
    forall k | 0 <= k <= |a + b|
      ensures Balance((a + b)[..k]) >= 0
    {
      if k <= |a| {
        assert (a + b)[..k] == a[..k];
      } else {
        assert (a + b)[..k] == a + b[..k - |a|];
        BalanceTwo(a, b[..k - |a|]);
      }
    }
  }

  lemma BalancedIn(a: string)
    requires Balanced(a)
    ensures Balanced("(" + a + ")")
  {
    var s := "(" + a;
    assert Balance("(") == 1 && Balance(")") == -1;
    BalanceTwo("(", a);
    BalanceTwo(s, ")");
    forall k | 0 <= k <= |s + ")"|
      ensures Balance((s + ")")[..k]) >= 0
    {
      if 1 <= k <= |s| {
        assert (s + ")")[..k] == "(" + a[..k - 1];
        BalanceTwo("(", a[..k - 1]);
      } else {
        assert (s + ")")[..k] == if k == 0 then "" else s + ")";
      }
    }
  }

  lemma {:induction false} NoParens(s: string)
    requires '(' !in s && ')' !in s
    ensures Balance(s) == 0 && Balanced(s)
    decreases |s|
  {
    if s != [] {
      var t := s[..|s| - 1];
      assert forall c :: c in t ==> c in s;
      NoParens(t);
      assert forall k :: 0 <= k < |s| ==> s[..k] == t[..k];
      assert s[..|s|] == s;
    }
  }

  lemma LambdaBalanced()
    ensures Balanced("g(()->{for(y){\na;\n}})")
  {
    hide Balanced, Balance;
    NoParens("");
    NoParens("g");
    NoParens("y");
    NoParens("->{for");
    NoParens("{\na;\n}}");
    BalancedIn("");
    BalancedIn("y");
    var a, b := "(" + "" + ")" + "->{for", "(" + "y" + ")" + "{\na;\n}}";
    BalancedTwo("(" + "" + ")", "->{for");
    BalancedTwo("(" + "y" + ")", "{\na;\n}}");
    BalancedTwo(a, b);
    BalancedIn(a + b);
    BalancedTwo("g", "(" + (a + b) + ")");
    assert "g" + ("(" + (a + b) + ")") == "g(()->{for(y){\na;\n}})";
  }

  lemma ForBodyLegible()
    ensures Legible(FOR_BODY, '{')
  {
    assert AllOrdinary("\n") && AllOrdinary("\na");
    hide AllOrdinary, First;
    TextLegible("\n", End, ';');
    assert First(FOR_BODY.rest) == ";" by { ForBodyFirst(); }
    TextLegible("\na", FOR_BODY.rest, '{');
  }

  lemma ForBodyFirst()
    ensures First(FOR_BODY.rest) == ";"
  {
  }

  lemma ForYLegible()
    ensures Legible(FOR_Y, '{')
  {
    OneBalanced('y');
    assert Show(Text("y", End)) == "y" && AllOrdinary("y");
    TextLegible("y", End, '(');
    assert LegibleHead("for", "", Text("y", End));
    hide LegibleHead, Show, First;
    ForBodyLegible();
  }

  lemma LambdaLegible()
    ensures Legible(LAMBDA, '(')
  {
    assert AllOrdinary(")") && AllOrdinary("g(()->");
    hide AllOrdinary, First;
    ForYLegible();
    forall c: char
      ensures Legible(Text(")", End), c)
    {
      TextLegible(")", End, c);
    }
    assert Legible(LAMBDA.rest, '>');
    TextLegible("g(()->", LAMBDA.rest, '(');
  }

  lemma HeaderLegible()
    ensures Legible(FOR_IN_HEADER, ' ')
  {
    hide Show, Balanced, First;
    LambdaLegible();
    LambdaShows();
    LambdaBalanced();
    assert LegibleHead("while", "", LAMBDA);
    hide LegibleHead;
    ShowSome();
    SimpleLegible('z', ')');
  }

  lemma LambdaJava()
    ensures HeaderIsJava(LAMBDA, "while")
  {
    CharIsJava("for", 'y');
    hide HeaderIsJava;
    assert IsJava(FOR_BODY.rest, FOR_BODY);
    assert IsJava(FOR_BODY, End);
    assert IsJava(FOR_Y, End);
    assert IsJava(Text(")", End), LAMBDA.rest);
    assert IsJava(LAMBDA.rest, LAMBDA);
    assert IsExpression(LAMBDA, false);
    LambdaIsHeader();
  }

  lemma LambdaIsHeader()
    requires IsExpression(LAMBDA, false) && IsJava(LAMBDA, End)
    ensures HeaderIsJava(LAMBDA, "while")
  {
  }

  lemma HeaderJava()
    ensures IsJava(FOR_IN_HEADER, End)
  {
    LambdaJava();
    SimpleJava('z');
    hide IsStatement, HeaderIsJava;
  }

  // Where a character stands does not matter to its line.

  lemma PlacedConcat(a: seq<Mark>, b: seq<Mark>, place: Place)
    ensures Placed(a + b, place) == Placed(a, place) + Placed(b, place)
  {
  }

  lemma PlacedTag(s: string, inBody: bool)
    ensures Placed(Tag(s, inBody), Place.Plain) == Tag(s, inBody)
  {
  }

  lemma PlacedTwice(m: seq<Mark>, place: Place)
    ensures Placed(Placed(m, place), Place.Plain) == Placed(m, Place.Plain)
  {
  }

  lemma {:induction false} PlacedLines(m: seq<Mark>, place: Place, line: nat)
    ensures BodyLines(Placed(m, place), line) == BodyLines(m, line)
  {
    if m != [] {
      assert Placed(m, place)[1..] == Placed(m[1..], place);
      PlacedLines(m[1..], place, if m[0].c == '\n' then line + 1 else line);
    }
  }

  lemma HeadPlaced(kw: string, open: string, header: Java)
    requires open == kw + "("
    ensures Placed(HeadMarks(kw, "", header, false), Place.Plain)
         == Tag(open, false) + (Placed(Marks(header, false), Place.Plain) + Tag(")", false))
  {
    hide Placed, Tag, Marks;
    var m := Placed(Marks(header, false), InHeader);
    assert Opens(kw, "") == open;
    PlacedTwice(Marks(header, false), InHeader);
    PlacedTag(open, false);
    PlacedTag(")", false);
    PlacedConcat(m, Tag(")", false), Place.Plain);
    PlacedConcat(Tag(open, false), m + Tag(")", false), Place.Plain);
  }

  lemma ForYMarks()
    ensures Placed(Marks(FOR_Y, false), Place.Plain) == Tag("for(y){", false) + (Tag("\na;\n", true) + Tag("}", true))
  {
    hide Tag, Placed, HeadMarks, Marks, BracedMarks;
    OnePiece(FOR_Y);
    ForYHead();
    ForYBody();
    PlacedConcat(HeadMarks("for", "", Text("y", End), false), BracedMarks("", FOR_BODY, false, true), Place.Plain);
    var rest := Tag("\na;\n", true) + Tag("}", true);
    assert Tag("for(y)", false) + (Tag("{", false) + rest) == (Tag("for(y)", false) + Tag("{", false)) + rest;
    TagConcat("for(y)", "{", false);
    assert "for(y)" + "{" == "for(y){";
  }

  lemma ForYHead()
    ensures Placed(HeadMarks("for", "", Text("y", End), false), Place.Plain) == Tag("for(y)", false)
  {
    assert Marks(Text("y", End), false) == Tag("y", false);
    PlacedTag("y", false);
    assert "for(" + "y)" == "for(y)" && "y" + ")" == "y)";
    hide Tag, Placed, Marks, HeadMarks;
    HeadPlaced("for", "for(", Text("y", End));
    TagConcat("for(", "y)", false);
    TagConcat("y", ")", false);
  }

  lemma ForYBody()
    ensures Placed(BracedMarks("", FOR_BODY, false, true), Place.Plain)
         == Tag("{", false) + (Tag("\na;\n", true) + Tag("}", true))
  {
    assert Marks(FOR_BODY, true) == Tag("\na;\n", true) && Tag("", false) == [];
    PlacedTag("{", false);
    PlacedTag("\na;\n", true);
    PlacedTag("}", true);
    hide Tag, Placed, Marks;
    var a, b, c := Tag("{", false), Tag("\na;\n", true), Tag("}", true);
    PlacedConcat(b, c, Place.Plain);
    PlacedConcat(a, b + c, Place.Plain);
    assert [] + (a + (b + c)) == a + (b + c);
  }

  lemma OnePiece(t: Java)
    requires !t.End? && t.rest.End?
    ensures Marks(t, false) == FirstMarks(t, false)
  {
    hide FirstMarks;
  }

  lemma LambdaMarks()
    ensures Placed(Marks(LAMBDA, false), Place.Plain)
         == Tag("g(()->{for(y){", false) + (Tag("\na;\n", true) + (Tag("}", true) + Tag("})", false)))
  {
    hide Tag, Placed, Marks;
    var m, end := Marks(FOR_Y, false), Tag("})", false);
    LambdaPieces(m);
    PlacedTag("g(()->{", false);
    PlacedTag("})", false);
    PlacedConcat(m, end, Place.Plain);
    PlacedConcat(Tag("g(()->{", false), m + end, Place.Plain);
    ForYMarks();
    TagConcat("g(()->{", "for(y){", false);
    assert "g(()->{" + "for(y){" == "g(()->{for(y){";
    RegroupLambda(Tag("g(()->{", false), Tag("for(y){", false), Tag("\na;\n", true), Tag("}", true), end);
  }

  lemma RegroupLambda(a: seq<Mark>, b: seq<Mark>, c: seq<Mark>, d: seq<Mark>, e: seq<Mark>)
    ensures a + ((b + (c + d)) + e) == (a + b) + (c + (d + e))
  {
  }

  lemma LambdaPieces(m: seq<Mark>)
    requires m == Marks(FOR_Y, false)
    ensures Marks(LAMBDA, false) == Tag("g(()->{", false) + (m + Tag("})", false))
  {
    TagConcat("g(()->", "{", false);
    TagConcat("}", ")", false);
    assert Marks(Text(")", End), false) == Tag(")", false) && Tag("", false) == [];
    hide Tag;
    assert FirstMarks(LAMBDA.rest, false) == [] + (Tag("{", false) + (m + Tag("}", false)));
    hide FirstMarks, Marks;
    MarksOn(LAMBDA);
    MarksOn(LAMBDA.rest);
    assert FirstMarks(LAMBDA, false) == Tag("g(()->", false) by { TextMarks("g(()->", LAMBDA.rest); }
    Regroup(Tag("g(()->", false), Tag("{", false), m, Tag("}", false), Tag(")", false));
  }

  lemma TextMarks(s: string, rest: Java)
    ensures FirstMarks(Text(s, rest), false) == Tag(s, false)
  {
  }

  lemma MarksOn(t: Java)
    requires !t.End?
    ensures Marks(t, false) == FirstMarks(t, false) + Marks(t.rest, false)
  {
    hide FirstMarks;
  }

  lemma Regroup(a: seq<Mark>, b: seq<Mark>, c: seq<Mark>, d: seq<Mark>, e: seq<Mark>)
    ensures a + (([] + (b + (c + d))) + e) == (a + b) + (c + (d + e))
  {
  }

  lemma RegroupHeader(a: seq<Mark>, b: seq<Mark>, c: seq<Mark>, d: seq<Mark>, e: seq<Mark>, f: seq<Mark>, g: seq<Mark>)
    ensures (a + ((b + (c + (d + e))) + f)) + g == (a + b) + (c + (d + ((e + f) + g)))
  {
    var u := c + (d + e);
    assert (a + ((b + u) + f)) + g == (a + b) + ((u + f) + g);
    assert (u + f) + g == c + (d + ((e + f) + g));
  }

  lemma HeaderMarks()
    ensures Placed(Marks(FOR_IN_HEADER, false), Place.Plain)
         == Tag("while(g(()->{for(y){", false)
            + (Tag("\n", true) + (Tag("a;", true) + (Tag("\n", true) + (Tag("}", true) + (Tag("}))", false) + (Tag("z;", true) + []))))))
  {
    hide Tag, Placed, HeadMarks, Marks, FirstMarks;
    var head, z, b, e := HeadMarks("while", "", LAMBDA, false), Tag("z;", true), Tag("}", true), Tag("}))", false);
    WhileMarks();
    PlacedConcat(head, z, Place.Plain);
    PlacedTag("z;", true);
    HeadPlaced("while", "while(", LAMBDA);
    LambdaMarks();
    RegroupHeader(Tag("while(", false), Tag("g(()->{for(y){", false), Tag("\na;\n", true), b, Tag("})", false),
                  Tag(")", false), z);
    HeaderTags();
    Assoc(Tag("\n", true), Tag("a;", true), Tag("\n", true), b + (e + z));
    assert z + [] == z;
  }

  lemma WhileMarks()
    ensures Marks(FOR_IN_HEADER, false) == HeadMarks("while", "", LAMBDA, false) + Tag("z;", true)
  {
    assert Marks(Z_SEMI, true) == Tag("z;", true) && Tag("", true) == [];
    hide Tag, HeadMarks, Marks;
    assert [] + Tag("z;", true) == Tag("z;", true);
    assert FirstMarks(FOR_IN_HEADER, false)
        == HeadMarks("while", "", LAMBDA, false) + (Tag("", true) + Marks(Z_SEMI, true));
    OnePiece(FOR_IN_HEADER);
  }

  lemma HeaderTags()
    ensures Tag("while(", false) + Tag("g(()->{for(y){", false) == Tag("while(g(()->{for(y){", false)
    ensures Tag("})", false) + Tag(")", false) == Tag("}))", false)
    ensures Tag("\na;\n", true) == Tag("\n", true) + (Tag("a;", true) + Tag("\n", true))
  {
    TagConcat("while(", "g(()->{for(y){", false);
    TagConcat("})", ")", false);
    TagConcat("\n", "a;\n", true);
    TagConcat("a;", "\n", true);
  }

  lemma Assoc(a: seq<Mark>, b: seq<Mark>, c: seq<Mark>, d: seq<Mark>)
    ensures (a + (b + c)) + d == a + (b + (c + d))
  {
  }

  lemma HeaderRead()
    ensures Read(FOR_IN_HEADER, 0, Held([], 0)).marks
         == Tag("while(g(()->{for(y){", false)
            + (Tag("\n", false) + (Tag("a;", false) + (Tag("\n", false) + (Tag("}}))", false) + (Tag("z;", true) + [])))))
  {
    hide Tag, Read, ReadFirst;
    var z := Tag("z;", true);
    WhileRead();
    ReadOnly(FOR_IN_HEADER, 0, Held([], 0));
    HeaderFlat();
    Assoc(Tag("while(g(()->{for(y){", false), Tag("\n", false), Tag("a;", false) + (Tag("\n", false) + Tag("}}))", false)), z);
    Assoc(Tag("a;", false), Tag("\n", false), Tag("}}))", false), z);
    assert z + [] == z;
  }

  lemma WhileRead()
    ensures ReadFirst(FOR_IN_HEADER, 0, Held([], 0)).marks == Tag("while(g(()->{for(y){\na;\n}}))", false) + Tag("z;", true)
  {
    assert Read(Z_SEMI, 0, Held([0], 1)).marks == Tag("z;", true) && Tag("", true) == [];
    hide Tag, Read, ReadFirst, Head, Show, First;
    HeaderShows();
    BriefReads(FOR_IN_HEADER);
    assert [] + Tag("z;", true) == Tag("z;", true);
  }

  lemma BriefReads(t: Java)
    requires t.Brief?
    ensures ReadFirst(t, 0, Held([], 0)).marks
         == Tag(Head(t.kw, t.gap, Show(t.header)), false) + (Tag(t.space, true) + Read(t.body, 0, Held([0], 1)).marks)
  {
    assert Pushed(Held([], 0), 0) == Held([0], 1);
    hide Tag, Read, Head, Show;
  }

  lemma HeaderFlat()
    ensures Tag("while(g(()->{for(y){\na;\n}}))", false)
         == Tag("while(g(()->{for(y){", false)
            + (Tag("\n", false) + (Tag("a;", false) + (Tag("\n", false) + Tag("}}))", false))))
  {
    assert "while(g(()->{for(y){" + "\na;\n}}))" == "while(g(()->{for(y){\na;\n}}))";
    assert "\n" + "a;\n}}))" == "\na;\n}}))" && "a;" + "\n}}))" == "a;\n}}))" && "\n" + "}}))" == "\n}}))";
    hide Tag;
    TagConcat("while(g(()->{for(y){", "\na;\n}}))", false);
    TagConcat("\n", "a;\n}}))", false);
    TagConcat("a;", "\n}}))", false);
    TagConcat("\n", "}}))", false);
  }

  lemma HeaderLines()
    ensures BodyLines(Marks(FOR_IN_HEADER, false), 1) == {2, 3}
    ensures BodyLines(Read(FOR_IN_HEADER, 0, Held([], 0)).marks, 1) == {3}
  {
    hide Marks, Read, BodyLines, Tag, Placed;
    var m := Tag("z;", true) + [];
    HeaderMarks();
    HeaderRead();
    PlacedLines(Marks(FOR_IN_HEADER, false), Place.Plain, 1);
    EndLines(3);
    FiveLines("while(g(()->{for(y){", "a;", "}", true, true, Tag("}))", false) + m);
    FiveLines("while(g(()->{for(y){", "a;", "}}))", false, false, m);
    LinesOn("}))", false, m, 3);
    LinesOn("z;", true, [], 3);
  }

  /** One stretch on each of three lines. */
  lemma FiveLines(s: string, r: string, u: string, b: bool, c: bool, rest: seq<Mark>)
    requires '\n' !in s + r + u && s != "" && r != "" && u != "" && !IsSpace(s[0]) && !IsSpace(r[0]) && !IsSpace(u[0])
    ensures BodyLines(Tag(s, false) + (Tag("\n", b) + (Tag(r, b) + (Tag("\n", b) + (Tag(u, c) + rest)))), 1)
         == (if b then {2} else {}) + ((if c then {3} else {}) + BodyLines(rest, 3))
  {
    hide BodyLines, Tag;
    LinesOn(s, false, Tag("\n", b) + (Tag(r, b) + (Tag("\n", b) + (Tag(u, c) + rest))), 1);
    LinesOver(b, Tag(r, b) + (Tag("\n", b) + (Tag(u, c) + rest)), 1);
    LinesOn(r, b, Tag("\n", b) + (Tag(u, c) + rest), 2);
    LinesOver(b, Tag(u, c) + rest, 2);
    LinesOn(u, c, rest, 3);
  }

  /** The body of the `for` is not found but where something else is: the condition of `JavaBodies.HeaderRightIff` fails. */
  lemma HeaderMisread()
    ensures Misread(FOR_IN_HEADER, "while(g(()->{for(y){\na;\n}}))z;", {2, 3}, {3})
  {
    hide Marks, Read, BodyLines, Show, First, FitsAt, IsJava, WordAt, Boundary, At, Misread, BareAt, AllQuiet, Head;
    HeaderShows();
    HeaderJava();
    HeaderLegible();
    HeaderLines();
    assert 2 in {2, 3} && 2 !in {3};
    Misreads(FOR_IN_HEADER, {2, 3}, {3});
  }

  // --- and one it reads right: `forEach` behind a receiver and a dot ---

  const A_SEMI := Text("\na", Semi(Text("\n", End)))
  const RECEIVER_LAMBDA := Text("o->", Block(A_SEMI, End))
  const FOR_EACH := Text("m.", ForEach("", RECEIVER_LAMBDA, Semi(End)))

  lemma ForEachShows()
    ensures Show(RECEIVER_LAMBDA) == "o->{\na;\n}" && Word("") == "forEach("
    ensures Show(FOR_EACH) == "m.forEach(o->{\na;\n});" && Show(FOR_EACH.rest) == "forEach(o->{\na;\n});"
  {
    ForShows();
    assert Word("") == "forEach(";
    hide Show, Word;
    ShowFirst(RECEIVER_LAMBDA.rest);
    ShowFirst(RECEIVER_LAMBDA);
    ShowFirst(FOR_EACH.rest);
    ShowFirst(FOR_EACH);
    assert Show(End) == "" && Show(Semi(End)) == ";" by { ShowEnds(); }
    assert First(RECEIVER_LAMBDA.rest) == "{\na;\n}";
    assert Show(RECEIVER_LAMBDA) == "o->{\na;\n}";
    assert First(FOR_EACH.rest) == "forEach(" + ("o->{\na;\n}" + ")") == "forEach(o->{\na;\n})";
    assert "forEach(o->{\na;\n})" + ";" == "forEach(o->{\na;\n});";
    assert "m." + "forEach(o->{\na;\n});" == "m.forEach(o->{\na;\n});";
  }

  lemma ShowEnds()
    ensures Show(End) == "" && Show(Semi(End)) == ";"
  {
  }

  lemma ForEachLegible()
    ensures Legible(FOR_EACH, ' ')
  {
    assert AllOrdinary("m.") && AllOrdinary("o->") && AllOrdinary("\n") && AllOrdinary("\na");
    NoParens("o->{\na;\n}");
    ForEachShows();
    ForBodyLegible();
    hide AllOrdinary, Show, First, Balanced;
    assert Legible(RECEIVER_LAMBDA.rest, '>');
    TextLegible("o->", RECEIVER_LAMBDA.rest, '(');
    forall c: char
      ensures Legible(Semi(End), c)
    {
    }
    assert Legible(FOR_EACH.rest, '.');
    TextLegible("m.", FOR_EACH.rest, ' ');
  }

  lemma ForEachJava()
    ensures IsJava(FOR_EACH, End)
  {
    assert IsJava(A_SEMI.rest, A_SEMI) && IsJava(A_SEMI, End);
    assert IsJava(RECEIVER_LAMBDA.rest, RECEIVER_LAMBDA);
    assert IsJava(RECEIVER_LAMBDA, End) && IsExpression(RECEIVER_LAMBDA, false);
    assert IsJava(Semi(End), FOR_EACH.rest);
    assert IsJava(FOR_EACH.rest, FOR_EACH);
  }

  /** What stands between the parentheses, marked or read: its three lines. */
  function LambdaTags(inBody: bool): seq<Mark> {
    Tag("o->{", inBody) + (Tag("\n", inBody) + (Tag("a;", inBody) + (Tag("\n", inBody) + Tag("}", inBody))))
  }

  lemma LambdaTagged(inBody: bool)
    ensures Tag("o->", inBody) + (Tag("", inBody) + (Tag("{", inBody) + (Tag("\na;\n", inBody) + Tag("}", inBody))))
         == LambdaTags(inBody)
  {
    TagConcat("o->", "{", inBody);
    TagConcat("\n", "a;\n", inBody);
    TagConcat("a;", "\n", inBody);
    assert "o->" + "{" == "o->{" && "\n" + "a;\n" == "\na;\n" && "a;" + "\n" == "a;\n";
    assert Tag("", inBody) == [];
    hide Tag;
    var n, a, b := Tag("\n", inBody), Tag("a;", inBody), Tag("}", inBody);
    assert (n + (a + n)) + b == n + (a + (n + b));
    assert Tag("o->", inBody) + ([] + (Tag("{", inBody) + (Tag("\na;\n", inBody) + b)))
        == (Tag("o->", inBody) + Tag("{", inBody)) + (Tag("\na;\n", inBody) + b);
  }

  lemma ForEachMarks()
    ensures Marks(FOR_EACH, false)
         == Tag("m.", false) + ((Tag("forEach(", false) + (LambdaTags(true) + Tag(")", false))) + Tag(";", false))
  {
    assert Marks(A_SEMI, true) == Tag("\na;\n", true);
    LambdaTagged(true);
    ForEachShows();
    hide Tag, Show, LambdaTags, Word;
    assert Marks(RECEIVER_LAMBDA.rest, true) == BracedMarks("", A_SEMI, true, true) + [];
    var m := BracedMarks("", A_SEMI, true, true);
    assert m + [] == m;
    assert Marks(RECEIVER_LAMBDA, true) == LambdaTags(true);
    EndMarks();
    hide BracedMarks;
    assert FirstMarks(FOR_EACH.rest, false) == Tag("forEach(", false) + (LambdaTags(true) + Tag(")", false));
    hide FirstMarks, Marks;
    MarksOn(FOR_EACH);
    MarksOn(FOR_EACH.rest);
    TextMarks("m.", FOR_EACH.rest);
  }

  lemma EndMarks()
    ensures Marks(Semi(End), false) == Tag(";", false)
  {
  }

  lemma ForEachRead()
    ensures Read(FOR_EACH, 0, Held([], 0)).marks
         == Tag("m.", false) + ((Tag("forEach(", false) + (LambdaTags(true) + Tag(")", false))) + Tag(";", false))
  {
    var h, d := Held([], 0), Held([], 1);
    LambdaRead(d);
    ForEachShows();
    assert Read(Semi(End), 0, h).marks == Tag(";", false);
    hide Tag, Show, LambdaTags, Word, Read;
    assert ReadFirst(FOR_EACH.rest, 0, h)
        == Reading(Tag("forEach(", false) + (LambdaTags(true) + Tag(")", false)), h);
    assert ReadFirst(FOR_EACH, 0, h) == Reading(Tag("m.", false), h);
    hide ReadFirst;
    ReadOn(FOR_EACH, 0, h);
    ReadOn(FOR_EACH.rest, 0, h);
  }

  lemma LambdaRead(d: Held)
    requires d == Held([], 1)
    ensures Read(RECEIVER_LAMBDA, 0, d) == Reading(LambdaTags(true), d)
  {
    assert Read(A_SEMI, 1, d) == Reading(Tag("\na;\n", true), d);
    LambdaTagged(true);
    hide Tag, LambdaTags;
    assert ReadFirst(RECEIVER_LAMBDA, 0, d) == Reading(Tag("o->", true), d);
    BlockRead(d);
    hide ReadFirst, Read;
    ReadOn(RECEIVER_LAMBDA, 0, d);
  }

  lemma BlockRead(d: Held)
    requires d == Held([], 1) && Read(A_SEMI, 1, d) == Reading(Tag("\na;\n", true), d)
    ensures Read(RECEIVER_LAMBDA.rest, 0, d)
         == Reading(Tag("", true) + (Tag("{", true) + (Tag("\na;\n", true) + Tag("}", true))), d)
  {
    hide Tag;
    ReadOnly(RECEIVER_LAMBDA.rest, 0, d);
  }

  lemma LambdaLines(rest: seq<Mark>)
    ensures BodyLines(LambdaTags(true) + rest, 1) == {1, 2, 3} + BodyLines(rest, 3)
  {
    hide BodyLines, Tag;
    var n, a, b := Tag("\n", true), Tag("a;", true), Tag("}", true);
    assert LambdaTags(true) + rest == Tag("o->{", true) + (n + (a + (n + (b + rest))));
    LinesOn("o->{", true, n + (a + (n + (b + rest))), 1);
    LinesOver(true, a + (n + (b + rest)), 1);
    LinesOn("a;", true, n + (b + rest), 2);
    LinesOver(true, b + rest, 2);
    LinesOn("}", true, rest, 3);
  }

  lemma ForEachLines()
    ensures BodyLines(Marks(FOR_EACH, false), 1) == {1, 2, 3}
    ensures Marks(FOR_EACH, false) == Read(FOR_EACH, 0, Held([], 0)).marks
  {
    hide Marks, Read, BodyLines, Tag, LambdaTags;
    ForEachMarks();
    ForEachRead();
    var l, end := LambdaTags(true), Tag(")", false) + (Tag(";", false) + []);
    assert (Tag("forEach(", false) + (l + Tag(")", false))) + Tag(";", false) == Tag("forEach(", false) + (l + end);
    LinesOn("m.", false, Tag("forEach(", false) + (l + end), 1);
    LinesOn("forEach(", false, l + end, 1);
    LambdaLines(end);
    LinesOn(")", false, Tag(";", false) + [], 3);
    LinesOn(";", false, [], 3);
    EndLines(3);
  }

  /** All of the argument list of a `forEach` is found, from the line of its `(` through the line of its `)`. */
  lemma ForEachIsFound()
    ensures WellFormed(FOR_EACH) && Show(FOR_EACH) == "m.forEach(o->{\na;\n});"
    ensures BodyLines(Marks(FOR_EACH, false), 1) == {1, 2, 3}
    ensures RunTo(Show(FOR_EACH), Start, |Show(FOR_EACH)|).inside == {1, 2, 3}
  {
    hide Marks, Read, BodyLines, Show, First, FitsAt, IsJava, Legible;
    ForEachShows();
    ForEachJava();
    ForEachLegible();
    ReadsAt(FOR_EACH, Show(FOR_EACH), 0, ' ') by { AtStart(Show(FOR_EACH)); }
    ForEachLines();
    ScanFile(FOR_EACH);
  }

  lemma AtStart(code: string)
    ensures At(code, 0, code) && Behind(code, 0, ' ')
  {
    assert code[0..|code|] == code;
  }
}
