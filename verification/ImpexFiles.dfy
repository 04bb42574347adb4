// Whole ImpEx files: comments, macro definitions, headers in any spelling and value lines, read back line by line.
module ImpexFiles {
  import opened Strings
  import opened Sorting
  import opened ImpexCells
  import opened ImpexStructure
  import UnifiedDiff

  // --- a printed file ---

  /** One line without the white space around it. A definition names a macro and its text; a header is a mode in any case,
      a type, modifiers in brackets or none, and after the first `;` its columns; a value line is any other. */
  datatype Line =
    | Remark(text: string)
    | Definition(name: string, gap: string, space: string, text: string)
    | Header(spelt: string, mode: string, gap: string, itemType: string, tail: Tail, columns: string)
    | Values(text: string)

  /** What stands between the type and the columns. */
  datatype Tail = Bare(space: string) | Modified(before: string, modifiers: string, behind: string)

  function TailText(tail: Tail): string {
    match tail
    case Bare(space) => space
    case Modified(before, modifiers, behind) => before + "[" + modifiers + "]" + behind
  }

  function LineText(line: Line): string {
    match line
    case Remark(text) => text
    case Definition(name, gap, space, text) => "$" + name + gap + "=" + space + text
    case Header(spelt, _, gap, itemType, tail, columns) => spelt + gap + itemType + TailText(tail) + ";" + columns
    case Values(text) => text
  }

  predicate IsMode(mode: string) {
    mode == "INSERT_UPDATE" || mode == "INSERT" || mode == "UPDATE" || mode == "REMOVE"
  }

  /** The same letters, each in either case. */
  predicate Spells(spelt: string, mode: string) {
    |spelt| == |mode| && forall k :: 0 <= k < |mode| ==>
      spelt[k] == mode[k] || ('A' <= mode[k] <= 'Z' && spelt[k] == mode[k] - 'A' + 'a')
  }

  predicate TailFits(tail: Tail) {
    match tail
    case Bare(space) => AllSpace(space)
    case Modified(before, modifiers, behind) => AllSpace(before) && ']' !in modifiers && AllSpace(behind)
  }

  /** What begins with `#` is a comment and with `"#` a directive. */
  predicate IsRemark(text: string) {
    text == "" || text[0] == '#' || (|text| > 1 && text[0] == '\"' && text[1] == '#')
  }

  predicate IsDefinition(line: Line) {
    && line.Definition? && Stripped(LineText(line))
    && line.name != "" && (forall k :: 0 <= k < |line.name| ==> IsWord(line.name[k]) || line.name[k] == '-')
    && AllSpace(line.gap) && AllSpace(line.space) && Stripped(line.text)
  }

  predicate IsHeader(line: Line) {
    && line.Header? && Stripped(LineText(line))
    && IsMode(line.mode) && Spells(line.spelt, line.mode) && line.gap != "" && AllSpace(line.gap) && TailFits(line.tail)
    && line.itemType != "" && (forall k :: 0 <= k < |line.itemType| ==> IsWord(line.itemType[k]))
  }

  /** No remark, no definition and no header is printed so. */
  ghost predicate IsValueLine(text: string) {
    && Stripped(text) && !IsRemark(text)
    && forall line :: IsDefinition(line) || IsHeader(line) ==> LineText(line) != text
  }

  ghost predicate LineFits(line: Line) {
    match line
    case Remark(text) => Stripped(text) && IsRemark(text)
    case Definition(_, _, _, _) => IsDefinition(line)
    case Header(_, _, _, _, _, _) => IsHeader(line)
    case Values(text) => IsValueLine(text)
  }

  /** What a line defines for those below it. */
  function Below(macros: Macros, line: Line): Macros {
    match line
    case Definition(name, _, _, text) => macros["$" + name := text]
    case _ => macros
  }

  /** The row of a line: a header's columns and a value line's cells are those of its text with the macros defined above. */
  function RowOf(expand: (string, Macros) -> string, macros: Macros, line: Line, number: nat): Option<ImpexRow> {
    match line
    case Remark(_) => None
    case Definition(_, _, _, _) => None
    case Header(_, mode, _, itemType, _, columns) =>
      Some(ImpexRow(number, mode, itemType, expand(columns, macros), Cells(expand(columns, macros)), LineText(line)))
    case Values(_) =>
      var cells := Cells(expand(LineText(line), macros));
      Some(ImpexRow(number, "", "", "", if cells.Some? then Some(cells.value[1..]) else None, LineText(line)))
  }

  /** The rows of a file, the first line of which has the number `number`. */
  function RowsOf(expand: (string, Macros) -> string, macros: Macros, lines: seq<Line>, number: nat): seq<ImpexRow>
    decreases |lines|
  {
    if lines == [] then []
    else
      var row := RowOf(expand, macros, lines[0], number);
      (if row.Some? then [row.value] else []) + RowsOf(expand, Below(macros, lines[0]), lines[1..], number + 1)
  }

  // --- reading one line ---

  lemma {:induction false} SpacesEndIs(s: string, i: nat, j: nat)
    requires i <= j <= |s| && AllSpace(s[i..j]) && (j < |s| ==> !IsSpace(s[j]))
    ensures SpacesEnd(s, i) == j
    decreases j - i
  {
    if i < j {
      assert s[i] == s[i..j][0] && s[i + 1..j] == s[i..j][1..];
      SpacesEndIs(s, i + 1, j);
    }
  }

  lemma {:induction false} MacroEndIs(s: string, i: nat, j: nat)
    requires i <= j <= |s| && (forall k :: i <= k < j ==> InMacroName(s[k])) && (j < |s| ==> !InMacroName(s[j]))
    ensures MacroEnd(s, i) == j
    decreases j - i
  {
    if i < j {
      MacroEndIs(s, i + 1, j);
    }
  }

  lemma {:induction false} BracketIs(s: string, i: nat, j: nat)
    requires i <= j < |s| && s[j] == ']' && forall k :: i <= k < j ==> s[k] != ']'
    ensures Bracket(s, i) == Some(j)
    decreases j - i
  {
    if i < j {
      BracketIs(s, i + 1, j);
    }
  }

  /** Where one part of a text stands. */
  lemma Part(s: string, front: string, part: string, back: string)
    requires s == front + part + back
    ensures |front| + |part| <= |s| && s[|front|..|front| + |part|] == part
    ensures forall k :: |front| <= k < |front| + |part| ==> s[k] == part[k - |front|]
  {
  }

  lemma DefinitionCuts(name: string, gap: string, rest: string)
    ensures var s, n := "$" + name + gap + "=" + rest, 1 + |name|;
      var e := n + |gap|;
      && e < |s| && s[0] == '$' && s[..n] == "$" + name && s[n..e] == gap && s[e] == '=' && s[e + 1..] == rest
      && s[1..n] == name && s[n] == (gap + "=")[0]
  {
  }

  /** Where the parts of a definition stand. */
  lemma DefinitionOffsets(line: Line) returns (n: nat, e: nat)
    requires IsDefinition(line)
    ensures var s := LineText(line);
      && 1 < n <= e < |s| && s[0] == '$' && s[..n] == "$" + line.name && s[n..e] == line.gap && s[e] == '='
      && s[e + 1..] == line.space + line.text
      && (forall k :: 1 <= k < n ==> InMacroName(s[k])) && !InMacroName(s[n])
  {
    hide Stripped;
    var Definition(name, gap, space, text) := line;
    var s := LineText(line);
    n := 1 + |name|;
    e := n + |gap|;
    DefinitionCuts(name, gap, space + text);
    assert s == "$" + name + gap + "=" + (space + text);
    assert s[n] == if gap == "" then '=' else gap[0];
    forall k | 1 <= k < n
      ensures InMacroName(s[k])
    {
      assert s[k] == s[1..n][k - 1];
    }
  }

  /** A definition is recognised with its name and its text. */
  lemma DefinitionReads(line: Line)
    requires IsDefinition(line)
    ensures MacroOf(LineText(line)) == Some(("$" + line.name, line.text)) && Carries(LineText(line))
  {
    var s := LineText(line);
    var n, e := DefinitionOffsets(line);
    StripPads(line.space, line.text, "");
    assert line.space + line.text + "" == line.space + line.text;
    hide LineText, Strip, Stripped, InMacroName, MacroEnd, SpacesEnd;
    MacroEndIs(s, 1, n);
    SpacesEndIs(s, n, e);
  }

  lemma UpperSpells(spelt: string, mode: string)
    requires IsMode(mode) && Spells(spelt, mode)
    ensures Upper(spelt) == mode && mode in MODES
    ensures spelt != "" && forall k :: 0 <= k < |spelt| ==> IsWord(spelt[k])
  {
    ModeIsWord(mode);
    forall k | 0 <= k < |mode|
      ensures Upper(spelt)[k] == mode[k] && IsWord(spelt[k])
    {
      assert mode[k] == Upper(mode)[k];
    }
  }

  /** The parts of a header stand where they should. */
  lemma HeaderParts(line: Line)
    requires line.Header?
    ensures var Header(spelt, _, gap, itemType, tail, columns) := line;
      var s, m := LineText(line), |spelt|;
      var t := m + |gap|;
      var u := t + |itemType|;
      var w := u + |TailText(tail)|;
      && w < |s| && s[..m] == spelt && s[m..t] == gap && s[t..u] == itemType && s[u..w] == TailText(tail)
      && s[w] == ';' && s[w + 1..] == columns
  {
    hide TailText;
    var Header(spelt, mode, gap, itemType, tail, columns) := line;
    var s, tailText := LineText(line), TailText(tail);
    assert s == spelt + (gap + itemType + tailText + ";" + columns);
    assert s == spelt + gap + (itemType + tailText + ";" + columns);
    Part(s, spelt, gap, itemType + tailText + ";" + columns);
    assert s == (spelt + gap) + itemType + (tailText + ";" + columns);
    Part(s, spelt + gap, itemType, tailText + ";" + columns);
    assert s == (spelt + gap + itemType) + tailText + (";" + columns);
    Part(s, spelt + gap + itemType, tailText, ";" + columns);
    assert s == (spelt + gap + itemType + tailText) + ";" + columns;
    Part(s, spelt + gap + itemType + tailText, ";", columns);
  }

  lemma WordEndAt(s: string, i: nat, j: nat, word: string)
    requires i <= j < |s| && s[i..j] == word && (forall k :: 0 <= k < |word| ==> IsWord(word[k])) && !IsWord(s[j])
    ensures WordEnd(s, i) == j
  {
    assert forall k :: i <= k < j ==> s[k] == s[i..j][k - i];
    WordEndIs(s, i, j);
  }

  /** The offsets of a header's parts, as the reader finds them. */
  lemma HeadIs(s: string, m: nat, t: nat, u: nat, w: nat)
    requires m < t < u <= w < |s| && s[w] == ';' && Upper(s[..m]) in MODES
    requires WordEnd(s, 0) == m && SpacesEnd(s, m) == t && WordEnd(s, t) == u && TailEnds(s, u, w)
    ensures HeadOf(s) == Some(Head(Upper(s[..m]), s[t..u], s[w + 1..]))
  {
    hide WordEnd, SpacesEnd, Bracket, Upper;
  }

  /** Behind the type, past modifiers if any, the reader stops at `w`. */
  predicate TailEnds(s: string, u: nat, w: nat)
    requires u <= |s|
  {
    var v := SpacesEnd(s, u);
    && v < |s|
    && var close := if s[v] == '[' then Bracket(s, v + 1) else None;
       (if close.Some? then SpacesEnd(s, close.value + 1) else v) == w
  }

  lemma SpacesEndAt(s: string, i: nat, j: nat, gap: string)
    requires i <= j < |s| && s[i..j] == gap && AllSpace(gap) && !IsSpace(s[j])
    ensures SpacesEnd(s, i) == j
  {
    SpacesEndIs(s, i, j);
  }

  lemma WordsCarry(s: string)
    requires s != "" && IsWord(s[0])
    ensures MacroOf(s) == None && Carries(s)
  {
  }

  /** Where the parts of a header stand, and what they begin with. */
  lemma HeaderOffsets(line: Line) returns (m: nat, t: nat, u: nat, w: nat)
    requires IsHeader(line)
    ensures var s := LineText(line);
      && m < t < u <= w < |s| && s[0..m] == line.spelt && s[m..t] == line.gap && s[t..u] == line.itemType
      && s[u..w] == TailText(line.tail) && s[w] == ';' && s[w + 1..] == line.columns
      && IsWord(s[0]) && IsSpace(s[m]) && IsWord(s[t])
  {
    var Header(spelt, mode, gap, itemType, tail, columns) := line;
    UpperSpells(spelt, mode);
    HeaderParts(line);
    var s := LineText(line);
    m := |spelt|;
    t := m + |gap|;
    u := t + |itemType|;
    w := u + |TailText(tail)|;
    hide LineText, TailText, TailFits, Stripped, Spells, IsMode, Upper, IsWord, IsSpace;
    assert s[0] == s[..m][0] && s[m] == s[m..t][0] && s[t] == s[t..u][0];
    assert s[0..m] == s[..m];
  }

  /** A header is recognised in any spelling, with or without modifiers. */
  lemma HeaderIsRead(line: Line)
    requires IsHeader(line)
    ensures HeadOf(LineText(line)) == Some(Head(line.mode, line.itemType, line.columns))
    ensures MacroOf(LineText(line)) == None && Carries(LineText(line))
  {
    var s := LineText(line);
    var m, t, u, w := HeaderOffsets(line);
    UpperSpells(line.spelt, line.mode);
    assert TailFits(line.tail) && AllSpace(line.gap);
    hide Stripped, Upper, IsMode, Spells, LineText, TailText, TailFits, HeadOf, WordEnd, SpacesEnd, TailEnds, MacroOf, Carries,
      AllSpace;
    WordsCarry(s);
    assert !IsWord(s[m]) && !IsSpace(s[t]);
    TailReads(s, u, w, line.tail);
    hide IsWord, IsSpace;
    SpacesEndAt(s, m, t, line.gap);
    WordEndAt(s, 0, m, line.spelt);
    WordEndAt(s, t, u, line.itemType);
    assert s[..m] == line.spelt;
    HeadIs(s, m, t, u, w);
  }

  lemma TailReads(s: string, u: nat, w: nat, tail: Tail)
    requires u <= w < |s| && s[u..w] == TailText(tail) && s[w] == ';' && TailFits(tail)
    ensures !IsWord(s[u]) && TailEnds(s, u, w)
  {
    match tail
    case Bare(space) =>
      assert u < w ==> s[u] == space[0];
      SpacesEndIs(s, u, w);
    case Modified(before, modifiers, behind) =>
      ModifiersRead(s, u, w, before, modifiers, behind);
  }

  lemma ModifiersRead(s: string, u: nat, w: nat, before: string, modifiers: string, behind: string)
    requires u <= w < |s| && s[u..w] == before + "[" + modifiers + "]" + behind && s[w] == ';'
    requires AllSpace(before) && ']' !in modifiers && AllSpace(behind)
    ensures !IsWord(s[u]) && TailEnds(s, u, w)
  {
    var text, n, v, c := s[u..w], |before|, u + |before|, u + |before| + 1 + |modifiers|;
    ModifiedReads(text, before, modifiers, behind);
    hide SpacesEnd, Bracket;
    assert s[u] == text[0] && s[u..v] == text[..n] && s[v] == text[n] && s[c] == text[n + 1 + |modifiers|];
    SpacesEndIs(s, u, v);
    forall k | v + 1 <= k < c
      ensures s[k] != ']'
    {
      assert s[k] == text[k - u];
    }
    BracketIs(s, v + 1, c);
    assert s[c + 1..w] == text[c + 1 - u..];
    SpacesEndIs(s, c + 1, w);
  }

  lemma ModifiedReads(text: string, before: string, modifiers: string, behind: string)
    requires text == before + "[" + modifiers + "]" + behind && AllSpace(before) && ']' !in modifiers
    ensures var v, c := |before|, |before| + 1 + |modifiers|;
      && c < |text| && text[..v] == before && text[v] == '[' && text[c] == ']' && text[c + 1..] == behind
      && (forall k :: v < k < c ==> text[k] != ']')
    ensures !IsWord(text[0])
  {
    var inner, rest := "[" + modifiers + "]", modifiers + "]" + behind;
    assert text == before + ("[" + rest) && text == before + inner + behind;
    Part(text, before, inner, behind);
    assert forall k :: 0 < k <= |modifiers| ==> inner[k] == modifiers[k - 1];
    assert text[0] == if before == "" then '[' else before[0];
  }

  // --- nothing else is recognised ---

  lemma {:induction false} WordEndWords(s: string, i: nat)
    requires i <= |s|
    ensures forall k :: i <= k < WordEnd(s, i) ==> IsWord(s[k])
    decreases |s| - i
  {
    if i < |s| && IsWord(s[i]) {
      WordEndWords(s, i + 1);
    }
  }

  lemma {:induction false} MacroEndNames(s: string, i: nat)
    requires i <= |s|
    ensures forall k :: i <= k < MacroEnd(s, i) ==> IsWord(s[k]) || s[k] == '-'
    decreases |s| - i
  {
    if i < |s| && InMacroName(s[i]) {
      MacroEndNames(s, i + 1);
    }
  }

  lemma {:induction false} SpacesEndSpaces(s: string, i: nat)
    requires i <= |s|
    ensures AllSpace(s[i..SpacesEnd(s, i)])
    decreases |s| - i
  {
    if IsSpaceAt(s, i) {
      SpacesEndSpaces(s, i + 1);
      var j := SpacesEnd(s, i);
      assert s[i..j] == [s[i]] + s[i + 1..j];
    }
  }

  lemma {:induction false} BracketFirst(s: string, i: nat)
    requires i <= |s| && Bracket(s, i).Some?
    ensures s[Bracket(s, i).value] == ']' && ']' !in s[i..Bracket(s, i).value]
    decreases |s| - i
  {
    if s[i] != ']' {
      BracketFirst(s, i + 1);
      var j := Bracket(s, i).value;
      assert s[i..j] == [s[i]] + s[i + 1..j];
    }
  }

  lemma LastOfTail(s: string, i: nat)
    requires i <= |s|
    ensures i < |s| ==> s[i..][|s[i..]| - 1] == s[|s| - 1]
  {
  }

  lemma LastOfBoth(a: string, b: string)
    ensures b != "" ==> (a + b)[|a + b| - 1] == b[|b| - 1]
  {
  }

  /** What is behind the `=` of a definition: space and text, and nothing else since the line ends in no space. */
  lemma TextBehind(s: string, i: nat) returns (space: string)
    requires Stripped(s) && i <= |s|
    ensures s[i..] == space + Strip(s[i..]) && AllSpace(space) && Stripped(Strip(s[i..]))
  {
    var rest := s[i..];
    StripCuts(rest);
    var front: string, back: string :| rest == front + Strip(rest) + back && AllSpace(front) && AllSpace(back);
    LastOfTail(s, i);
    LastOfBoth(front + Strip(rest), back);
    hide Strip;
    assert back == "";
    assert rest == front + Strip(rest);
    space := front;
  }

  /** Where the reader finds the parts of a definition. */
  lemma MacroFound(s: string) returns (n: nat, e: nat)
    requires MacroOf(s).Some?
    ensures 1 < n <= e < |s| && s[0] == '$' && s[e] == '=' && AllSpace(s[n..e])
    ensures forall k :: 1 <= k < n ==> IsWord(s[k]) || s[k] == '-'
  {
    n := MacroEnd(s, 1);
    e := SpacesEnd(s, n);
    MacroEndNames(s, 1);
    SpacesEndSpaces(s, n);
  }

  lemma DefinitionParts(s: string, n: nat, e: nat, space: string, text: string)
    requires 1 < n <= e < |s| && s[0] == '$' && s[e] == '=' && s[e + 1..] == space + text
    ensures s == "$" + s[1..n] + s[n..e] + "=" + space + text
  {
    assert s == s[..e + 1] + s[e + 1..];
    assert s[..e + 1] == "$" + s[1..n] + s[n..e] + "=";
  }

  /** What is recognised as a definition is printed as one. */
  lemma MacroIsDefinition(s: string) returns (line: Line)
    requires Stripped(s) && MacroOf(s).Some?
    ensures IsDefinition(line) && LineText(line) == s
  {
    hide Strip, MacroOf, Stripped, IsWord;
    var n, e := MacroFound(s);
    var space := TextBehind(s, e + 1);
    var text := Strip(s[e + 1..]);
    DefinitionParts(s, n, e, space, text);
    line := Definition(s[1..n], s[n..e], space, text);
    assert forall k :: 0 <= k < |line.name| ==> line.name[k] == s[k + 1];
  }

  lemma UpperIsSpelt(spelt: string)
    requires Upper(spelt) in MODES
    ensures IsMode(Upper(spelt)) && Spells(spelt, Upper(spelt))
  {
  }

  /** The tail between the type and the columns, as the reader passes it. */
  lemma TailPassed(s: string, u: nat, w: nat) returns (tail: Tail)
    requires u <= w < |s| && TailEnds(s, u, w)
    ensures TailFits(tail) && TailText(tail) == s[u..w]
  {
    hide SpacesEnd, Bracket, AllSpace;
    var v := SpacesEnd(s, u);
    SpacesEndSpaces(s, u);
    if s[v] == '[' && Bracket(s, v + 1).Some? {
      var c := Bracket(s, v + 1).value;
      BracketFirst(s, v + 1);
      SpacesEndSpaces(s, c + 1);
      ModifiedParts(s, u, v, c, w);
      tail := Modified(s[u..v], s[v + 1..c], s[c + 1..w]);
    } else {
      tail := Bare(s[u..w]);
    }
  }

  lemma ModifiedParts(s: string, u: nat, v: nat, c: nat, w: nat)
    requires u <= v < c < w <= |s| && s[v] == '[' && s[c] == ']'
    ensures s[u..w] == s[u..v] + "[" + s[v + 1..c] + "]" + s[c + 1..w]
  {
  }

  lemma InParts(s: string, m: nat, t: nat, u: nat, w: nat)
    requires m <= t <= u <= w < |s| && s[w] == ';'
    ensures s == s[..m] + s[m..t] + s[t..u] + s[u..w] + ";" + s[w + 1..]
  {
  }

  /** Where the reader finds the parts of a header. */
  lemma HeadFound(s: string) returns (m: nat, t: nat, u: nat, w: nat)
    requires HeadOf(s).Some?
    ensures m < t < u <= w < |s| && s[w] == ';' && TailEnds(s, u, w)
    ensures Upper(s[..m]) in MODES && AllSpace(s[m..t]) && forall k :: t <= k < u ==> IsWord(s[k])
  {
    m := WordEnd(s, 0);
    t := SpacesEnd(s, m);
    u := WordEnd(s, t);
    SpacesEndSpaces(s, m);
    WordEndWords(s, t);
    hide WordEnd, SpacesEnd, Bracket, Upper, AllSpace, IsWord;
    var v := SpacesEnd(s, u);
    var close := if s[v] == '[' then Bracket(s, v + 1) else None;
    w := if close.Some? then SpacesEnd(s, close.value + 1) else v;
  }

  /** What is recognised as a header is printed as one. */
  lemma HeadIsHeader(s: string) returns (line: Line)
    requires Stripped(s) && HeadOf(s).Some?
    ensures IsHeader(line) && LineText(line) == s
  {
    hide HeadOf, Upper, TailEnds, TailText, TailFits, IsMode, Spells, Stripped;
    var m, t, u, w := HeadFound(s);
    var tail := TailPassed(s, u, w);
    UpperIsSpelt(s[..m]);
    InParts(s, m, t, u, w);
    line := Header(s[..m], Upper(s[..m]), s[m..t], s[t..u], tail, s[w + 1..]);
    assert forall k :: 0 <= k < |s[t..u]| ==> s[t..u][k] == s[t + k];
  }

  lemma ValuesAreRead(text: string)
    requires IsValueLine(text)
    ensures HeadOf(text) == None && MacroOf(text) == None && Carries(text)
  {
    hide HeadOf, MacroOf, IsDefinition, IsHeader, Stripped;
    if MacroOf(text).Some? {
      var line := MacroIsDefinition(text);
    }
    if HeadOf(text).Some? {
      var line := HeadIsHeader(text);
    }
  }

  /** What one line adds to the macros, and the row it carries, whatever white space stands around it. */
  lemma LineReads(expand: (string, Macros) -> string, macros: Macros, number: nat, raw: string, line: Line)
    requires LineFits(line) && Strip(raw) == LineText(line)
    ensures ReadLine(expand, macros, number, raw) == (Below(macros, line), RowOf(expand, macros, line, number))
  {
    hide Strip, Cells, HeadOf, MacroOf;
    match line
    case Remark(text) =>
    case Definition(_, _, _, _) =>
      DefinitionReads(line);
    case Header(_, _, _, _, _, _) =>
      HeaderIsRead(line);
    case Values(text) =>
      ValuesAreRead(text);
      CellsAreSome(expand(text, macros));
  }

  lemma CellsAreSome(text: string)
    ensures Cells(text).Some? ==> Cells(text).value != []
  {
    hide Scan;
  }

  /** What stands in a file: a line, and the white space around it. */
  datatype Printed = Printed(front: string, line: Line, back: string)

  function RawText(p: Printed): string {
    p.front + LineText(p.line) + p.back
  }

  function LineOf(p: Printed): Line {
    p.line
  }

  ghost predicate PrintedFits(p: Printed) {
    LineFits(p.line) && AllSpace(p.front) && AllSpace(p.back) && '\n' !in RawText(p)
  }

  lemma FitsIsStripped(line: Line)
    requires LineFits(line)
    ensures Stripped(LineText(line))
  {
  }

  lemma PrintedReads(expand: (string, Macros) -> string, macros: Macros, number: nat, p: Printed)
    requires PrintedFits(p)
    ensures ReadLine(expand, macros, number, RawText(p)) == (Below(macros, p.line), RowOf(expand, macros, p.line, number))
  {
    FitsIsStripped(p.line);
    hide ReadLine, LineText, RowOf, Strip, Stripped, LineFits;
    StripPads(p.front, LineText(p.line), p.back);
    LineReads(expand, macros, number, RawText(p), p.line);
  }

  /** A printed file reads back as its rows: comments carry none, a definition stands for the macro in every line below it
      until the next, and each header and value line is one, on its line. */
  lemma {:induction false} LinesRead(expand: (string, Macros) -> string, macros: Macros, file: seq<Printed>, number: nat)
    requires forall k :: 0 <= k < |file| ==> PrintedFits(file[k])
    ensures ReadLines(expand, macros, number, Map(RawText, file)) == RowsOf(expand, macros, Map(LineOf, file), number)
    decreases |file|
  {
    hide ReadLine, LineText, RowOf, Strip;
    if file != [] {
      var p := file[0];
      PrintedReads(expand, macros, number, p);
      assert Map(RawText, file)[1..] == Map(RawText, file[1..]) && Map(LineOf, file)[1..] == Map(LineOf, file[1..]);
      LinesRead(expand, Below(macros, p.line), file[1..], number + 1);
    }
  }

  lemma FileReads(expand: (string, Macros) -> string, file: seq<Printed>)
    requires forall k :: 0 <= k < |file| ==> PrintedFits(file[k])
    ensures ReadLines(expand, map[], 1, UnifiedDiff.SplitLines(UnifiedDiff.Unlines(Map(RawText, file))))
         == RowsOf(expand, map[], Map(LineOf, file), 1)
  {
    hide ReadLines, UnifiedDiff.SplitLines, UnifiedDiff.Unlines, LineFits, RowsOf;
    UnifiedDiff.SplitLinesUnlines(Map(RawText, file));
    LinesRead(expand, map[], file, 1);
  }

  lemma IsOneOf(text: string) returns (line: Line)
    requires Stripped(text)
    ensures LineFits(line) && LineText(line) == text
  {
    hide Stripped, IsRemark, IsDefinition, IsHeader, TailText;
    if IsRemark(text) {
      line := Remark(text);
    } else if d :| IsDefinition(d) && LineText(d) == text {
      line := d;
      DefinitionFits(d);
    } else if h :| IsHeader(h) && LineText(h) == text {
      line := h;
      HeaderFits(h);
    } else {
      line := Values(text);
    }
  }

  lemma DefinitionFits(line: Line)
    requires IsDefinition(line)
    ensures LineFits(line)
  {
  }

  lemma HeaderFits(line: Line)
    requires IsHeader(line)
    ensures LineFits(line)
  {
  }

  /** Every line is one of these, with white space around it. */
  lemma LineIsPrinted(raw: string) returns (p: Printed)
    requires '\n' !in raw
    ensures PrintedFits(p) && RawText(p) == raw
  {
    StripCuts(raw);
    var front: string, back: string :| raw == front + Strip(raw) + back && AllSpace(front) && AllSpace(back);
    hide Strip, Stripped, LineFits, LineText;
    var line := IsOneOf(Strip(raw));
    p := Printed(front, line, back);
  }

  /** So every file is a printed one. */
  lemma {:induction false} FileIsPrinted(lines: seq<string>) returns (file: seq<Printed>)
    requires forall k :: 0 <= k < |lines| ==> '\n' !in lines[k]
    ensures (forall k :: 0 <= k < |file| ==> PrintedFits(file[k])) && Map(RawText, file) == lines
  {
    hide PrintedFits;
    file := [];
    for k := 0 to |lines|
      invariant (forall j :: 0 <= j < |file| ==> PrintedFits(file[j])) && Map(RawText, file) == lines[..k]
    {
      var p := LineIsPrinted(lines[k]);
      file := file + [p];
    }
    assert lines[..|lines|] == lines;
  }
}
