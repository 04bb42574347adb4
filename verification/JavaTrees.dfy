// Blanked Java as trees: which characters stand in the body of a loop, and what the scanner takes them for.
module JavaTrees {
  // Three things are said about a tree of statements, each by recursion and none by running the scanner: its text
  // (`Show`), which characters of the text stand in a loop body by the rules of the language (`Marks`), and which
  // ones a reader with the scanner's two counters takes for that (`Read`). `JavaScan` shows the scanner is that
  // reader; `JavaBodies` says when the reader is right.

  import opened Strings
  import opened JavaLoops

  // --- trees and their text ---

  predicate StartsClause(word: string) {
    word in ["if", "else", "try", "catch", "finally", "switch", "synchronized"]
  }

  type ClauseWord = word: string | StartsClause(word) witness "if"

  /** What follows the body of a `do`: white space, `while (header)`, white space, a `;`. */
  datatype Tail = Tail(mid: string, gap: string, header: Java, space: string)

  /** Blanked Java, as a list of pieces. A `Brief` is a loop whose body is one statement without braces, printed
      through its last character; a `Clause` is a keyword of a compound statement, what stands between the keyword and
      its body, and the body. */
  datatype Java =
    | End
    | Text(text: string, rest: Java)
    | Semi(rest: Java)
    | Block(body: Java, rest: Java)
    | Loop(kw: string, gap: string, header: Java, space: string, body: Java, rest: Java)
    | Brief(kw: string, gap: string, header: Java, space: string, body: Java, rest: Java)
    | Do(braced: bool, space: string, body: Java, tail: Tail, rest: Java)
    | ForEach(gap: string, args: Java, rest: Java)
    | Clause(lead: string, word: ClauseWord, head: Java, body: Java, rest: Java)

  function Head(kw: string, gap: string, header: string): string {
    kw + gap + "(" + header + ")"
  }

  function Word(gap: string): string {
    "forEach" + gap + "("
  }

  function ShowTail(tail: Tail): string
    decreases tail, 2
  {
    tail.mid + (Head("while", tail.gap, Show(tail.header)) + (tail.space + ";"))
  }

  function Braced(space: string, body: Java): string
    decreases body, 2
  {
    space + ("{" + (Show(body) + "}"))
  }

  /** The first piece of `t`, printed. */
  function First(t: Java): string
    requires !t.End?
    decreases t, 0
  {
    match t
    case Text(s, _) => s
    case Semi(_) => ";"
    case Block(body, _) => Braced("", body)
    case Loop(kw, gap, header, space, body, _) => Head(kw, gap, Show(header)) + Braced(space, body)
    case Brief(kw, gap, header, space, body, _) => Head(kw, gap, Show(header)) + (space + Show(body))
    case Do(braced, space, body, tail, _) =>
      "do" + ((if braced then Braced(space, body) else space + Show(body)) + ShowTail(tail))
    case ForEach(gap, args, _) => Word(gap) + (Show(args) + ")")
    case Clause(lead, word, head, body, _) => lead + word + (Show(head) + Show(body))
  }

  function Show(t: Java): string
    decreases t, 1
  {
    if t.End? then "" else First(t) + Show(t.rest)
  }

  // --- the truth ---

  /** Two places that matter to what the scanner does: the end of a `do`, from behind the header through the `;`, and
      the header of a loop that stands in no other loop. */
  datatype Place = Plain | DoEnd | InHeader

  /** One character of the text, and whether it stands in the body of some loop. */
  datatype Mark = Mark(c: char, inBody: bool, place: Place)

  function Tag(s: string, inBody: bool): seq<Mark> {
    seq(|s|, i requires 0 <= i < |s| => Mark(s[i], inBody, Plain))
  }

  function TagTail(s: string, inBody: bool): seq<Mark> {
    seq(|s|, i requires 0 <= i < |s| => Mark(s[i], inBody, DoEnd))
  }

  function Placed(m: seq<Mark>, place: Place): seq<Mark> {
    seq(|m|, i requires 0 <= i < |m| => m[i].(place := place))
  }

  function Opens(kw: string, gap: string): string {
    kw + gap + "("
  }

  /** Keyword and header as their surroundings, but for what a lambda or a class in the header has of loops. */
  function HeadMarks(kw: string, gap: string, header: Java, inBody: bool): seq<Mark>
    decreases header, 2
  {
    var m := if inBody then Marks(header, true) else Placed(Marks(header, false), InHeader);
    Tag(Opens(kw, gap), inBody) + (m + Tag(")", inBody))
  }

  /** White space and an opening brace as their surroundings, then a body through its closing brace. */
  function BracedMarks(space: string, body: Java, outer: bool, inner: bool): seq<Mark>
    decreases body, 2
  {
    Tag(space, outer) + (Tag("{", outer) + (Marks(body, inner) + Tag("}", inner)))
  }

  function TailMarks(tail: Tail, inBody: bool): seq<Mark>
    decreases tail, 2
  {
    Tag(tail.mid, inBody) + (HeadMarks("while", tail.gap, tail.header, inBody) + TagTail(tail.space + ";", inBody))
  }

  /** The first piece again, marked. A braced body runs from behind its `{` through its `}`, a body without braces is
      one statement, a `forEach` body is its argument list; keywords and headers, and everything behind the body of a
      `do`, belong to what surrounds the loop. */
  function FirstMarks(t: Java, inBody: bool): seq<Mark>
    requires !t.End?
    decreases t, 0
  {
    match t
    case Text(s, _) => Tag(s, inBody)
    case Semi(_) => Tag(";", inBody)
    case Block(body, _) => BracedMarks("", body, inBody, inBody)
    case Loop(kw, gap, header, space, body, _) =>
      HeadMarks(kw, gap, header, inBody) + BracedMarks(space, body, inBody, true)
    case Brief(kw, gap, header, space, body, _) =>
      HeadMarks(kw, gap, header, inBody) + (Tag(space, true) + Marks(body, true))
    case Do(braced, space, body, tail, _) =>
      Tag("do", inBody) + ((if braced then BracedMarks(space, body, inBody, true) else Tag(space, true) + Marks(body, true))
                           + TailMarks(tail, inBody))
    case ForEach(gap, args, _) => Tag(Word(gap), inBody) + (Marks(args, true) + Tag(")", inBody))
    case Clause(lead, word, head, body, _) => Tag(lead + word, inBody) + (Marks(head, inBody) + Marks(body, inBody))
  }

  function Marks(t: Java, inBody: bool): seq<Mark>
    decreases t, 1
  {
    if t.End? then [] else FirstMarks(t, inBody) + Marks(t.rest, inBody)
  }

  function Chars(m: seq<Mark>): string {
    seq(|m|, i requires 0 <= i < |m| => m[i].c)
  }

  lemma CharsConcat(a: seq<Mark>, b: seq<Mark>)
    ensures Chars(a + b) == Chars(a) + Chars(b)
  {
  }

  lemma CharsTag(s: string, inBody: bool)
    ensures Chars(Tag(s, inBody)) == Chars(TagTail(s, inBody)) == s
  {
  }

  lemma BracedMarksShow(space: string, body: Java, outer: bool, inner: bool)
    ensures Chars(BracedMarks(space, body, outer, inner)) == Braced(space, body)
    decreases body, 2
  {
    hide Chars, Tag, Show, Marks;
    MarksShow(body, inner);
    CharsTag("}", inner);
    CharsTag("{", outer);
    CharsTag(space, outer);
    CharsConcat(Marks(body, inner), Tag("}", inner));
    CharsConcat(Tag("{", outer), Marks(body, inner) + Tag("}", inner));
    CharsConcat(Tag(space, outer), Tag("{", outer) + (Marks(body, inner) + Tag("}", inner)));
  }

  lemma CharsPlaced(m: seq<Mark>, place: Place)
    ensures Chars(Placed(m, place)) == Chars(m)
  {
  }

  lemma HeadMarksShow(kw: string, gap: string, header: Java, inBody: bool)
    ensures Chars(HeadMarks(kw, gap, header, inBody)) == Head(kw, gap, Show(header))
    decreases header, 2
  {
    hide Chars, Tag, Show, Marks, Placed;
    var m := if inBody then Marks(header, true) else Placed(Marks(header, false), InHeader);
    MarksShow(header, inBody);
    CharsPlaced(Marks(header, false), InHeader);
    CharsTag(Opens(kw, gap), inBody);
    CharsTag(")", inBody);
    CharsConcat(m, Tag(")", inBody));
    CharsConcat(Tag(Opens(kw, gap), inBody), m + Tag(")", inBody));
    assert Opens(kw, gap) + (Show(header) + ")") == Head(kw, gap, Show(header));
  }

  lemma TailMarksShow(tail: Tail, inBody: bool)
    ensures Chars(TailMarks(tail, inBody)) == ShowTail(tail)
    decreases tail, 3
  {
    hide Chars, Tag, TagTail, Head, HeadMarks;
    var head := HeadMarks("while", tail.gap, tail.header, inBody);
    CharsTag(tail.mid, inBody);
    HeadMarksShow("while", tail.gap, tail.header, inBody);
    CharsTag(tail.space + ";", inBody);
    CharsConcat(head, TagTail(tail.space + ";", inBody));
    CharsConcat(Tag(tail.mid, inBody), head + TagTail(tail.space + ";", inBody));
  }

  lemma FirstMarksShow(t: Java, inBody: bool)
    requires !t.End?
    ensures Chars(FirstMarks(t, inBody)) == First(t)
    decreases t, 0
  {
    hide Chars, Tag, Show, Marks, Head, HeadMarks, Braced, BracedMarks, ShowTail, TailMarks;
    match t
    case Text(s, _) => CharsTag(s, inBody);
    case Semi(_) => CharsTag(";", inBody);
    case Block(body, _) => BracedMarksShow("", body, inBody, inBody);
    case Loop(kw, gap, header, space, body, _) =>
      BracedMarksShow(space, body, inBody, true);
      HeadMarksShow(kw, gap, header, inBody);
      CharsConcat(HeadMarks(kw, gap, header, inBody), BracedMarks(space, body, inBody, true));
    case Brief(kw, gap, header, space, body, _) =>
      BareShow(space, body);
      HeadMarksShow(kw, gap, header, inBody);
      CharsConcat(HeadMarks(kw, gap, header, inBody), Tag(space, true) + Marks(body, true));
    case Do(braced, space, body, tail, _) =>
      BracedMarksShow(space, body, inBody, true);
      BareShow(space, body);
      TailMarksShow(tail, inBody);
      CharsTag("do", inBody);
      var m := if braced then BracedMarks(space, body, inBody, true) else Tag(space, true) + Marks(body, true);
      CharsConcat(m, TailMarks(tail, inBody));
      CharsConcat(Tag("do", inBody), m + TailMarks(tail, inBody));
    case ForEach(gap, args, _) =>
      MarksShow(args, true);
      CharsTag(")", inBody);
      CharsTag(Word(gap), inBody);
      CharsConcat(Marks(args, true), Tag(")", inBody));
      CharsConcat(Tag(Word(gap), inBody), Marks(args, true) + Tag(")", inBody));
    case Clause(lead, word, head, body, _) =>
      MarksShow(head, inBody);
      MarksShow(body, inBody);
      CharsTag(lead + word, inBody);
      CharsConcat(Marks(head, inBody), Marks(body, inBody));
      CharsConcat(Tag(lead + word, inBody), Marks(head, inBody) + Marks(body, inBody));
  }

  lemma BareShow(space: string, body: Java)
    ensures Chars(Tag(space, true) + Marks(body, true)) == space + Show(body)
    decreases body, 2
  {
    MarksShow(body, true);
    CharsTag(space, true);
    CharsConcat(Tag(space, true), Marks(body, true));
  }

  /** The marked text is the text. */
  lemma {:induction false} MarksShow(t: Java, inBody: bool)
    ensures Chars(Marks(t, inBody)) == Show(t)
    decreases t, 1
  {
    if !t.End? {
      FirstMarksShow(t, inBody);
      MarksShow(t.rest, inBody);
      CharsConcat(FirstMarks(t, inBody), Marks(t.rest, inBody));
    }
  }

  function Breaks(m: seq<Mark>): nat {
    if m == [] then 0 else (if m[0].c == '\n' then 1 else 0) + Breaks(m[1..])
  }

  /** The lines with a character that is no white space and stands in a loop body; `line` is the first one's number. */
  function BodyLines(m: seq<Mark>, line: nat): set<nat> {
    if m == [] then {}
    else if m[0].c == '\n' then BodyLines(m[1..], line + 1)
    else (if m[0].inBody && !IsSpace(m[0].c) then {line} else {}) + BodyLines(m[1..], line)
  }

  // --- one statement, by the rules of the language ---

  /** Parentheses that pair up. */
  ghost predicate Balanced(s: string) {
    Balance(s) == 0 && forall k :: 0 <= k <= |s| ==> Balance(s[..k]) >= 0
  }

  /** White space, one parenthesis closed at the very end, white space. */
  ghost predicate Parenthesised(s: string) {
    exists a: string, b: string, c: string :: s == a + "(" + b + ")" + c && AllSpace(a) && Balanced(b) && AllSpace(c)
  }

  /** An expression holds statements only inside the braces of a lambda or a class body; the resources of a `try` and
      the parts of a `for` header are set off by `;`. */
  predicate IsExpression(t: Java, resources: bool) {
    match t
    case End => true
    case Text(_, rest) => IsExpression(rest, resources)
    case Block(_, rest) => IsExpression(rest, resources)
    case ForEach(_, _, rest) => IsExpression(rest, resources)
    case Semi(rest) => resources && IsExpression(rest, resources)
    case _ => false
  }

  predicate IsLabel(s: string) {
    EndsWith(RStrip(s), ":")
  }

  /** An expression, and the `;` behind it. */
  predicate IsSimple(t: Java) {
    match t
    case Text(s, rest) => (IsLabel(s) ==> !rest.Block?) && IsSimple(rest)
    case Block(_, rest) => IsSimple(rest)
    case ForEach(_, _, rest) => IsSimple(rest)
    case Semi(rest) => rest.End?
    case _ => false
  }

  /** Clauses that go on one statement. */
  predicate IsChain(t: Java)
    requires t.Clause?
  {
    || t.rest.End?
    || (t.rest.Clause? && (t.rest.word == "else" || t.rest.word == "catch" || t.rest.word == "finally") && IsChain(t.rest))
  }

  /** Exactly one statement, from its first character to its last. */
  predicate IsStatement(t: Java) {
    match t
    case End => false
    case Text(s, rest) => s != "" && !IsSpace(s[0]) && (if IsLabel(s) then IsStatement(rest) else IsSimple(t))
    case ForEach(_, _, _) => IsSimple(t)
    case Clause(lead, _, _, _, _) => lead == "" && IsChain(t)
    case _ => t.rest.End?
  }

  /** A statement an `else` behind it would belong to. */
  predicate EndsInIf(t: Java) {
    match t
    case Text(_, rest) => EndsInIf(rest)
    case Brief(_, _, _, _, body, _) => EndsInIf(body)
    case Clause(_, word, _, body, rest) => if rest.End? then word == "if" || EndsInIf(body) else EndsInIf(rest)
    case _ => false
  }

  /** Whether a clause may stand behind the piece `before`, and what its parts must be. */
  ghost predicate ClauseFits(word: ClauseWord, head: Java, body: Java, before: Java) {
    && IsExpression(head, word == "try") && IsStatement(body) && (word == "if" || word == "else" || body.Block?)
    && (if word == "else" || word == "finally" then AllSpace(Show(head))
        else Parenthesised(Show(head)) || (word == "try" && AllSpace(Show(head))))
    && (word == "else" ==> before.Clause? && before.word == "if" && !EndsInIf(before.body))
    && (word == "catch" || word == "finally" ==> before.Clause? && (before.word == "try" || before.word == "catch"))
  }

  ghost predicate HeaderIsJava(header: Java, kw: string)
    decreases header, 1
  {
    IsExpression(header, kw == "for") && IsJava(header, End)
  }

  /** Statements, members and types as the language has them; `before` is the piece in front, `End` for none. */
  ghost predicate IsJava(t: Java, before: Java)
    decreases t, 0
  {
    match t
    case End => true
    case Text(s, rest) => s != "" && !before.Text? && IsJava(rest, t)
    case Semi(rest) => IsJava(rest, t)
    case Block(body, rest) => IsJava(body, End) && IsJava(rest, t)
    case Loop(kw, _, header, _, body, rest) => HeaderIsJava(header, kw) && IsJava(body, End) && IsJava(rest, t)
    case Brief(kw, _, header, _, body, rest) =>
      HeaderIsJava(header, kw) && IsStatement(body) && IsJava(body, End) && IsJava(rest, t)
    case Do(braced, _, body, tail, rest) =>
      (braced || IsStatement(body)) && IsJava(body, End) && HeaderIsJava(tail.header, "while") && IsJava(rest, t)
    case ForEach(_, args, rest) => IsExpression(args, false) && IsJava(args, End) && IsJava(rest, t)
    case Clause(_, word, head, body, rest) =>
      ClauseFits(word, head, body, before) && IsJava(head, End) && IsJava(body, End) && IsJava(rest, t)
  }

  // --- a tree printed somewhere, and read there as what it is ---

  /** A character the scanner only walks past. */
  predicate Quiet(code: string, k: nat)
    requires k < |code|
  {
    && code[k] != '{' && code[k] != '}' && code[k] != ';'
    && !LoopHeadAt(code, k) && !DoBlockAt(code, k) && !ForEachAt(code, k)
  }

  predicate AllQuiet(code: string, i: nat, j: nat) {
    j <= |code| && forall k :: i <= k < j ==> Quiet(code, k)
  }

  /** `word` at offset `i`, as a word of its own. */
  predicate WordAt(code: string, i: nat, word: string) {
    At(code, i, word) && Boundary(code, i, true)
    && (i + |word| < |code| ==> !(IsWord(code[i + |word|]) || code[i + |word|] == '$'))
  }

  /** A compound statement starts here, or goes on; `synchronized` may also be a modifier. */
  ghost predicate ClauseAt(code: string, i: nat) {
    || WordAt(code, i, "do")
    || exists word :: StartsClause(word) && WordAt(code, i, word)
                      && (word == "synchronized" ==> WordThen(code, i, word, '('))
  }

  /** A loop head printed at `i`: nothing runs into its keyword and its `(` is on the keyword's line. */
  ghost predicate HeadFits(code: string, i: nat, kw: string, gap: string, header: string) {
    && (kw == "for" || kw == "while")
    && AllSpace(gap) && '\n' !in gap && Balanced(header) && Boundary(code, i, true)
  }

  /** White space, then something that is neither that nor an opening brace. */
  predicate BareAt(code: string, i: nat, space: string) {
    var j := i + |space|;
    AllSpace(space) && j < |code| && code[j] != '{' && !IsSpace(code[j])
  }

  /** A header, whose pieces read as what they are. */
  ghost predicate HeaderFits(header: Java, code: string, i: nat, kw: string, gap: string)
    decreases header, 2
  {
    HeadFits(code, i, kw, gap, Show(header)) && FitsAt(header, code, i + |Opens(kw, gap)|)
  }

  ghost predicate TailFits(tail: Tail, code: string, i: nat)
    decreases tail, 3
  {
    AllSpace(tail.mid) && AllSpace(tail.space) && HeaderFits(tail.header, code, i + |tail.mid|, "while", tail.gap)
  }

  function BodyOf(t: Java): string
    requires t.Do?
  {
    if t.braced then Braced(t.space, t.body) else t.space + Show(t.body)
  }

  /** Whether the first piece of `t`, printed at offset `i` of `code`, reads as what it is. */
  ghost predicate FirstFits(t: Java, code: string, i: nat)
    requires !t.End?
    decreases t, 0
  {
    match t
    case Text(s, _) => AllQuiet(code, i, i + |s|) && forall k :: i <= k < i + |s| ==> !ClauseAt(code, k)
    case Semi(_) => true
    case Block(body, _) => FitsAt(body, code, i + 1)
    case Loop(kw, gap, header, space, body, _) =>
      var j := i + |Head(kw, gap, Show(header))|;
      HeaderFits(header, code, i, kw, gap) && AllSpace(space) && FitsAt(body, code, j + |space| + 1)
    case Brief(kw, gap, header, space, body, _) =>
      var j := i + |Head(kw, gap, Show(header))|;
      HeaderFits(header, code, i, kw, gap) && BareAt(code, j, space) && FitsAt(body, code, j + |space|)
    case Do(braced, space, body, tail, _) =>
      && WordAt(code, i, "do")
      && (if braced then AllSpace(space) else BareAt(code, i + 2, space) && AllQuiet(code, i, i + 2 + |space|))
      && FitsAt(body, code, if braced then i + 2 + |space| + 1 else i + 2 + |space|)
      && TailFits(tail, code, i + 2 + |BodyOf(t)|)
    case ForEach(gap, args, _) =>
      && AllSpace(gap) && '\n' !in gap && Boundary(code, i, false) && Balanced(Show(args))
      && FitsAt(args, code, i + |Word(gap)|)
    case Clause(lead, word, head, body, _) =>
      var j := i + |lead| + |word|;
      && AllSpace(lead) && WordAt(code, i + |lead|, word) && AllQuiet(code, i, j)
      && FitsAt(head, code, j) && FitsAt(body, code, j + |Show(head)|)
  }

  /** Whether `t` is printed at offset `i` of `code` and reads there as what it is. */
  ghost predicate FitsAt(t: Java, code: string, i: nat)
    decreases t, 1
  {
    && At(code, i, Show(t))
    && (t.End? || (FirstFits(t, code, i) && FitsAt(t.rest, code, i + |First(t)|)))
  }

  /** A whole file. */
  ghost predicate WellFormed(t: Java) {
    IsJava(t, End) && FitsAt(t, Show(t), 0)
  }

  // --- a reader with the scanner's two counters ---

  /** The brace depths of the loops without braces held open, and how many loops are open in all. */
  datatype Held = Held(braceless: seq<nat>, depth: int)

  /** Characters as the reader takes them, and what it holds behind them. */
  datatype Reading = Reading(marks: seq<Mark>, held: Held)

  function Pushed(h: Held, level: nat): Held {
    Held(h.braceless + [level], h.depth + 1)
  }

  function Popped(h: Held, level: nat): Held {
    if h.braceless != [] && Last(h.braceless) == level then Held(Init(h.braceless), h.depth - 1) else h
  }

  function Walk(s: string, h: Held): Reading {
    Reading(Tag(s, h.depth > 0), h)
  }

  function Along(a: Reading, b: Reading): Reading {
    Reading(a.marks + b.marks, b.held)
  }

  function ReadBraced(space: string, body: Java, loop: bool, level: nat, h: Held): Reading
    decreases body, 2
  {
    var more := if loop then 1 else 0;
    var r := Read(body, level + 1, h.(depth := h.depth + more));
    Reading(Tag(space, h.depth > 0) + (Tag("{", h.depth > 0) + (r.marks + Tag("}", r.held.depth > 0))),
            r.held.(depth := r.held.depth - more))
  }

  /** Behind a header that opens no block everything is taken for a body, up to the `;` that ends it. */
  function ReadTail(tail: Tail, h: Held): Reading {
    Reading(Tag(tail.mid, h.depth > 0) + (Tag(Head("while", tail.gap, Show(tail.header)), h.depth > 0)
                                          + Tag(tail.space + ";", h.depth + 1 > 0)), h)
  }

  function ReadFirst(t: Java, level: nat, h: Held): Reading
    requires !t.End?
    decreases t, 0
  {
    var inBody := h.depth > 0;
    match t
    case Text(s, _) => Walk(s, h)
    case Semi(_) => Reading(Tag(";", inBody), Popped(h, level))
    case Block(body, _) => ReadBraced("", body, false, level, h)
    case Loop(kw, gap, header, space, body, _) =>
      Along(Walk(Head(kw, gap, Show(header)), h), ReadBraced(space, body, true, level, h))
    case Brief(kw, gap, header, space, body, _) =>
      var p := Pushed(h, level);
      Along(Walk(Head(kw, gap, Show(header)), h), Along(Walk(space, p), Read(body, level, p)))
    case Do(braced, space, body, tail, _) =>
      var r := if braced then ReadBraced(space, body, true, level, h) else Along(Walk(space, h), Read(body, level, h));
      Along(Walk("do", h), Along(r, ReadTail(tail, r.held)))
    case ForEach(gap, args, _) =>
      var r := Read(args, level, h.(depth := h.depth + 1));
      var out := r.held.(depth := r.held.depth - 1);
      Along(Walk(Word(gap), h), Along(r, Walk(")", out)))
    case Clause(lead, word, head, body, _) =>
      var r := Read(head, level, h);
      Along(Walk(lead + word, h), Along(r, Read(body, level, r.held)))
  }

  /** `t` read behind `level` open braces, holding `h`. A loop header is passed over as it stands. */
  function Read(t: Java, level: nat, h: Held): Reading
    decreases t, 1
  {
    if t.End? then Reading([], h)
    else
      var r := ReadFirst(t, level, h);
      Along(r, Read(t.rest, level, r.held))
  }

  lemma ReadOn(t: Java, level: nat, h: Held)
    requires !t.End?
    ensures var r := ReadFirst(t, level, h); Read(t, level, h) == Along(r, Read(t.rest, level, r.held))
  {
    hide ReadFirst, Along;
  }

  lemma TagLength(s: string, inBody: bool)
    ensures |Tag(s, inBody)| == |TagTail(s, inBody)| == |s|
  {
  }

  lemma ReadBracedShow(space: string, body: Java, loop: bool, level: nat, h: Held)
    ensures Chars(ReadBraced(space, body, loop, level, h).marks) == Braced(space, body)
    decreases body, 2
  {
    hide Chars, Tag, Show, Read;
    var inner := h.(depth := h.depth + if loop then 1 else 0);
    var r := Read(body, level + 1, inner);
    ReadShow(body, level + 1, inner);
    CharsTag("}", r.held.depth > 0);
    CharsTag("{", h.depth > 0);
    CharsTag(space, h.depth > 0);
    CharsConcat(r.marks, Tag("}", r.held.depth > 0));
    CharsConcat(Tag("{", h.depth > 0), r.marks + Tag("}", r.held.depth > 0));
    CharsConcat(Tag(space, h.depth > 0), Tag("{", h.depth > 0) + (r.marks + Tag("}", r.held.depth > 0)));
  }

  lemma ReadTailShow(tail: Tail, h: Held)
    ensures Chars(ReadTail(tail, h).marks) == ShowTail(tail)
  {
    hide Chars, Tag, Head;
    var head := Tag(Head("while", tail.gap, Show(tail.header)), h.depth > 0);
    CharsTag(tail.mid, h.depth > 0);
    CharsTag(Head("while", tail.gap, Show(tail.header)), h.depth > 0);
    CharsTag(tail.space + ";", h.depth + 1 > 0);
    CharsConcat(head, Tag(tail.space + ";", h.depth + 1 > 0));
    CharsConcat(Tag(tail.mid, h.depth > 0), head + Tag(tail.space + ";", h.depth + 1 > 0));
  }

  /** `s` walked, then more read. */
  lemma WalkShow(s: string, h: Held, r: Reading, text: string)
    requires Chars(r.marks) == text
    ensures Chars(Along(Walk(s, h), r).marks) == s + text
  {
    CharsTag(s, h.depth > 0);
    CharsConcat(Tag(s, h.depth > 0), r.marks);
  }

  lemma AlongShow(a: Reading, b: Reading)
    ensures Chars(Along(a, b).marks) == Chars(a.marks) + Chars(b.marks)
  {
    CharsConcat(a.marks, b.marks);
  }

  lemma ReadFirstShow(t: Java, level: nat, h: Held)
    requires !t.End?
    ensures Chars(ReadFirst(t, level, h).marks) == First(t)
    decreases t, 0
  {
    hide Chars, Tag, Show, Read, Along, Walk, Head, Braced, ReadBraced, ShowTail, ReadTail;
    match t
    case Text(s, _) => WalkOnly(s, h);
    case Semi(_) => CharsTag(";", h.depth > 0);
    case Block(body, _) => ReadBracedShow("", body, false, level, h);
    case Loop(kw, gap, header, space, body, _) =>
      var r := ReadBraced(space, body, true, level, h);
      ReadBracedShow(space, body, true, level, h);
      WalkShow(Head(kw, gap, Show(header)), h, r, Braced(space, body));
    case Brief(kw, gap, header, space, body, _) =>
      var p := Pushed(h, level);
      ReadShow(body, level, p);
      WalkShow(space, p, Read(body, level, p), Show(body));
      WalkShow(Head(kw, gap, Show(header)), h, Along(Walk(space, p), Read(body, level, p)), space + Show(body));
    case Do(braced, space, body, tail, _) =>
      var r := if braced then ReadBraced(space, body, true, level, h) else Along(Walk(space, h), Read(body, level, h));
      ReadBracedShow(space, body, true, level, h);
      ReadShow(body, level, h);
      WalkShow(space, h, Read(body, level, h), Show(body));
      ReadTailShow(tail, r.held);
      AlongShow(r, ReadTail(tail, r.held));
      WalkShow("do", h, Along(r, ReadTail(tail, r.held)), BodyOf(t) + ShowTail(tail));
    case ForEach(gap, args, _) =>
      var r := Read(args, level, h.(depth := h.depth + 1));
      var out := r.held.(depth := r.held.depth - 1);
      ReadShow(args, level, h.(depth := h.depth + 1));
      WalkOnly(")", out);
      AlongShow(r, Walk(")", out));
      WalkShow(Word(gap), h, Along(r, Walk(")", out)), Show(args) + ")");
    case Clause(lead, word, head, body, _) =>
      var r := Read(head, level, h);
      ReadShow(head, level, h);
      ReadShow(body, level, r.held);
      AlongShow(r, Read(body, level, r.held));
      WalkShow(lead + word, h, Along(r, Read(body, level, r.held)), Show(head) + Show(body));
  }

  lemma WalkOnly(s: string, h: Held)
    ensures Chars(Walk(s, h).marks) == s
  {
    CharsTag(s, h.depth > 0);
  }

  /** The characters read are the text, each once. */
  lemma {:induction false} ReadShow(t: Java, level: nat, h: Held)
    ensures Chars(Read(t, level, h).marks) == Show(t)
    decreases t, 1
  {
    if !t.End? {
      ReadFirstShow(t, level, h);
      ReadShow(t.rest, level, ReadFirst(t, level, h).held);
      AlongShow(ReadFirst(t, level, h), Read(t.rest, level, ReadFirst(t, level, h).held));
    }
  }

  lemma ReadLength(t: Java, level: nat, h: Held)
    ensures |Read(t, level, h).marks| == |Show(t)|
    ensures !t.End? ==> |ReadFirst(t, level, h).marks| == |First(t)|
  {
    ReadShow(t, level, h);
    assert |Chars(Read(t, level, h).marks)| == |Read(t, level, h).marks|;
    if !t.End? {
      ReadFirstShow(t, level, h);
      assert |Chars(ReadFirst(t, level, h).marks)| == |ReadFirst(t, level, h).marks|;
    }
  }
}
