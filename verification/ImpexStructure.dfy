// The ImpEx reader, and whether what it reads has a shape an import could take.
module ImpexStructure {
  import opened Strings
  import opened Sorting
  import opened ImpexCells
  import UnifiedDiff

  // --- lines ---

  predicate IsSpaceAt(s: string, i: nat) {
    i < |s| && IsSpace(s[i])
  }

  /** The first offset from `i` on that holds no space. */
  function SpacesEnd(s: string, i: nat): (j: nat)
    requires i <= |s|
    ensures i <= j <= |s|
    decreases |s| - i
  {
    if IsSpaceAt(s, i) then SpacesEnd(s, i + 1) else i
  }

  /** The first offset from `i` on that holds no word character. */
  function WordEnd(s: string, i: nat): (j: nat)
    requires i <= |s|
    ensures i <= j <= |s|
    decreases |s| - i
  {
    if i < |s| && IsWord(s[i]) then WordEnd(s, i + 1) else i
  }

  /** The first `]` from `i` on. */
  function Bracket(s: string, i: nat): (j: Option<nat>)
    requires i <= |s|
    ensures j.Some? ==> i <= j.value < |s|
    decreases |s| - i
  {
    if i == |s| then None else if s[i] == ']' then Some(i) else Bracket(s, i + 1)
  }

  function Upper(s: string): string {
    Map((c: char) => if 'a' <= c <= 'z' then c - 'a' + 'A' else c, s)
  }

  const MODES := {"INSERT_UPDATE", "INSERT", "UPDATE", "REMOVE"}

  datatype Head = Head(mode: string, itemType: string, columns: string)

  /** A header: a mode, a type with or without modifiers in brackets, and after the first `;` the columns. */
  function HeadOf(line: string): Option<Head> {
    var m := WordEnd(line, 0);
    var t := SpacesEnd(line, m);
    var u := WordEnd(line, t);
    var v := SpacesEnd(line, u);
    if Upper(line[..m]) !in MODES || t == m || u == t || v == |line| then None
    else
      var close := if line[v] == '[' then Bracket(line, v + 1) else None;
      var w := if close.Some? then SpacesEnd(line, close.value + 1) else v;
      if w < |line| && line[w] == ';' then Some(Head(Upper(line[..m]), line[t..u], line[w + 1..])) else None
  }

  predicate InMacroName(c: char) {
    IsWord(c) || c == '-'
  }

  function MacroEnd(s: string, i: nat): (j: nat)
    requires i <= |s|
    ensures i <= j <= |s|
    decreases |s| - i
  {
    if i < |s| && InMacroName(s[i]) then MacroEnd(s, i + 1) else i
  }

  /** A macro definition: `$name = text`. */
  function MacroOf(line: string): Option<(string, string)> {
    if line == [] || line[0] != '$' then None
    else
      var n := MacroEnd(line, 1);
      var e := SpacesEnd(line, n);
      if n == 1 || e == |line| || line[e] != '=' then None else Some((line[..n], Strip(line[e + 1..])))
  }

  // --- rows ---

  datatype ImpexRow = ImpexRow(line: nat, mode: string, itemType: string, columns: string, cells: Option<seq<string>>,
                               text: string)

  type Macros = map<string, string>

  predicate Carries(line: string) {
    line != [] && !StartsWith(line, "#") && !StartsWith(line, "\"#")
  }

  /** What one line adds to the macros, and the row it carries if any. */
  function ReadLine(expand: (string, Macros) -> string, macros: Macros, number: nat, raw: string):
    (Macros, Option<ImpexRow>)
  {
    var line := Strip(raw);
    if !Carries(line) then (macros, None)
    else
      match MacroOf(line)
      case Some((name, text)) => (macros[name := text], None)
      case None =>
        match HeadOf(line)
        case Some(head) =>
          var columns := expand(head.columns, macros);
          (macros, Some(ImpexRow(number, head.mode, head.itemType, columns, Cells(columns), line)))
        case None =>
          (macros, Some(ImpexRow(number, "", "", "", ValuesOf(Cells(expand(line, macros))), line)))
  }

  /** The cells behind the empty slot under the mode and the type. */
  function ValuesOf(cells: Option<seq<string>>): Option<seq<string>> {
    if cells.Some? && cells.value != [] then Some(cells.value[1..]) else cells
  }

  /** The rows of the lines from `number` on. */
  function ReadLines(expand: (string, Macros) -> string, macros: Macros, number: nat, lines: seq<string>): seq<ImpexRow>
    decreases |lines|
  {
    if lines == [] then []
    else
      var (after, row) := ReadLine(expand, macros, number, lines[0]);
      (if row.Some? then [row.value] else []) + ReadLines(expand, after, number + 1, lines[1..])
  }

  /** One turn of the reader's loop. */
  method ReadOne(expand: (string, Macros) -> string, macros: Macros, number: nat, raw: string)
    returns (after: Macros, row: Option<ImpexRow>)
    ensures (after, row) == ReadLine(expand, macros, number, raw)
  {
    hide Cells, HeadOf, MacroOf, Strip;
    var line := Strip(raw);
    if !Carries(line) {
      return macros, None;
    }
    var definition := MacroOf(line);
    if definition.Some? {
      return macros[definition.value.0 := definition.value.1], None;
    }
    var header := HeadOf(line);
    if header.Some? {
      var columns := expand(header.value.columns, macros);
      var cells := SplitCells(columns);
      return macros, Some(ImpexRow(number, header.value.mode, header.value.itemType, columns, cells, line));
    }
    var cells := SplitCells(expand(line, macros));
    return macros, Some(ImpexRow(number, "", "", "", ValuesOf(cells), line));
  }

  /** The one reader of ImpEx; `expand` substitutes macros. */
  method ParseImpex(expand: (string, Macros) -> string, text: string) returns (rows: seq<ImpexRow>)
    ensures rows == ReadLines(expand, map[], 1, UnifiedDiff.SplitLines(text))
  {
    hide ReadLine, ReadLines, UnifiedDiff.SplitLines;
    rows := [];
    var macros: Macros := map[];
    var lines := UnifiedDiff.SplitLines(text);
    assert lines[0..] == lines;
    for k := 0 to |lines|
      invariant ReadLines(expand, map[], 1, lines) == rows + ReadLines(expand, macros, k + 1, lines[k..])
    {
      NextLine(expand, macros, k, lines, rows);
      var row;
      macros, row := ReadOne(expand, macros, k + 1, lines[k]);
      if row.Some? {
        rows := rows + [row.value];
      }
    }
    NoMoreLines(expand, macros, lines, rows);
  }

  lemma NextLine(expand: (string, Macros) -> string, macros: Macros, k: nat, lines: seq<string>, rows: seq<ImpexRow>)
    requires k < |lines|
    ensures var (after, row) := ReadLine(expand, macros, k + 1, lines[k]);
      rows + ReadLines(expand, macros, k + 1, lines[k..])
      == (if row.Some? then rows + [row.value] else rows) + ReadLines(expand, after, k + 2, lines[k + 1..])
  {
    hide ReadLine;
    assert lines[k..][0] == lines[k] && lines[k..][1..] == lines[k + 1..];
    var (after, row) := ReadLine(expand, macros, k + 1, lines[k]);
    var rest := ReadLines(expand, after, k + 2, lines[k + 1..]);
    assert rows + ([] + rest) == rows + rest;
    if row.Some? {
      assert rows + ([row.value] + rest) == rows + [row.value] + rest;
    }
  }

  lemma NoMoreLines(expand: (string, Macros) -> string, macros: Macros, lines: seq<string>, rows: seq<ImpexRow>)
    ensures rows + ReadLines(expand, macros, |lines| + 1, lines[|lines|..]) == rows
  {
    assert lines[|lines|..] == [];
  }

  // --- structure ---

  /** How many cells a row has once the empty ones at its end are ignored. */
  method Filled(cells: seq<string>) returns (end: nat)
    ensures end == FilledCount(cells)
    ensures end <= |cells| && (forall k :: end <= k < |cells| ==> cells[k] == "") && (end > 0 ==> cells[end - 1] != "")
  {
    end := |cells|;
    while end > 0 && cells[end - 1] == ""
      invariant end <= |cells| && (forall k :: end <= k < |cells| ==> cells[k] == "")
      invariant FilledCount(cells[..end]) == FilledCount(cells)
    {
      assert cells[..end][..end - 1] == cells[..end - 1];
      end := end - 1;
    }
    assert cells[..|cells|] == cells;
  }

  function FilledCount(cells: seq<string>): (end: nat)
    ensures end <= |cells| && (forall k :: end <= k < |cells| ==> cells[k] == "") && (end > 0 ==> cells[end - 1] != "")
  {
    if cells == [] || cells[|cells| - 1] != "" then |cells| else FilledCount(cells[..|cells| - 1])
  }

  /** Whether a value line fills the header above it: as written, or with trailing empty cells ignored on both. */
  predicate Fills(header: seq<string>, values: seq<string>) {
    |header| == |values| || FilledCount(header) == FilledCount(values)
  }

  datatype Problem = NoHeader(line: nat) | WrongCount(line: nat, values: nat, columns: nat)

  /** Nothing above, a header whose columns cannot be counted, or a header with its columns. */
  datatype Above = Nothing | Uncountable | Columns(cells: seq<string>)

  function AboveOf(row: ImpexRow): Above {
    match row.cells
    case None => Uncountable
    case Some(cells) => Columns(cells)
  }

  /** What is wrong with a value line under what stands above it. */
  function ProblemUnder(above: Above, row: ImpexRow): Option<Problem> {
    match above
    case Nothing => Some(NoHeader(row.line))
    case Uncountable => None
    case Columns(header) =>
      if row.cells.None? || Fills(header, row.cells.value) then None
      else Some(WrongCount(row.line, |row.cells.value|, |header|))
  }

  /** The last header among the first `k` rows. */
  function LastHeader(rows: seq<ImpexRow>, k: nat): Above
    requires k <= |rows|
  {
    if k == 0 then Nothing else if rows[k - 1].mode != "" then AboveOf(rows[k - 1]) else LastHeader(rows, k - 1)
  }

  /** What is wrong with row `k`, judged by the last header before it. */
  function ProblemOf(rows: seq<ImpexRow>, k: nat): Option<Problem>
    requires k < |rows|
  {
    if rows[k].mode != "" then None else ProblemUnder(LastHeader(rows, k), rows[k])
  }

  function Listed(p: Option<Problem>): seq<Problem> {
    if p.Some? then [p.value] else []
  }

  /** The problems of the first `n` rows, in order. */
  function ProblemsOf(rows: seq<ImpexRow>, n: nat): seq<Problem>
    requires n <= |rows|
  {
    if n == 0 then []
    else ProblemsOf(rows, n - 1) + Listed(ProblemOf(rows, n - 1))
  }

  /** A value line is reported exactly when nothing is above it, or its count and its filled count both differ from
      those of the last header above it; and nothing else is. */
  method Problems(expand: (string, Macros) -> string, text: string) returns (found: seq<Problem>)
    ensures var rows := ReadLines(expand, map[], 1, UnifiedDiff.SplitLines(text));
      found == ProblemsOf(rows, |rows|)
  {
    hide ReadLines;
    var rows := ParseImpex(expand, text);
    var header: Option<seq<string>>, anyHeader := None, false;
    found := [];
    for k := 0 to |rows|
      invariant found == ProblemsOf(rows, k)
      invariant LastHeader(rows, k) == if !anyHeader then Nothing else if header.None? then Uncountable else Columns(header.value)
    {
      var row := rows[k];
      if row.mode != "" {
        header := row.cells;
        anyHeader := true;
        continue;
      }
      if !anyHeader {
        found := found + [NoHeader(row.line)];
        continue;
      }
      if header.None? || row.cells.None? {
        continue;
      }
      var columns := Filled(header.value);
      var values := Filled(row.cells.value);
      if !(|header.value| == |row.cells.value| || columns == values) {
        found := found + [WrongCount(row.line, |row.cells.value|, |header.value|)];
      }
    }
  }

  // --- a printed table ---

  /** A header and the value lines under it. */
  datatype Block = Block(mode: string, itemType: string, columns: seq<string>, values: seq<seq<string>>)

  predicate IsCell(cell: string) {
    Whole(cell) && Stripped(cell) && '\n' !in cell
  }

  predicate AreCells(cells: seq<string>) {
    cells != [] && forall k :: 0 <= k < |cells| ==> IsCell(cells[k])
  }

  predicate IsName(name: string) {
    name != [] && forall k :: 0 <= k < |name| ==> IsWord(name[k])
  }

  predicate BlockFits(b: Block) {
    && b.mode in MODES && IsName(b.itemType) && AreCells(b.columns)
    && forall k :: 0 <= k < |b.values| ==> AreCells(b.values[k])
  }

  function HeaderText(b: Block): string {
    b.mode + " " + b.itemType + ";" + Join(b.columns, ';')
  }

  function ValueText(values: seq<string>): string {
    ";" + Join(values, ';')
  }

  function BlockLines(b: Block): seq<string> {
    [HeaderText(b)] + Map(ValueText, b.values)
  }

  function TableLines(table: seq<Block>): seq<string> {
    if table == [] then [] else BlockLines(table[0]) + TableLines(table[1..])
  }

  /** The rows a printed table stands for, the first on line `number`. */
  function HeaderRow(b: Block, number: nat): ImpexRow {
    ImpexRow(number, b.mode, b.itemType, Join(b.columns, ';'), Some(b.columns), HeaderText(b))
  }

  function ValueRow(values: seq<string>, number: nat): ImpexRow {
    ImpexRow(number, "", "", "", Some(values), ValueText(values))
  }

  function ValueRows(values: seq<seq<string>>, number: nat): seq<ImpexRow>
    decreases |values|
  {
    if values == [] then [] else [ValueRow(values[0], number)] + ValueRows(values[1..], number + 1)
  }

  function TableRows(table: seq<Block>, number: nat): seq<ImpexRow>
    decreases |table|
  {
    if table == [] then []
    else [HeaderRow(table[0], number)] + ValueRows(table[0].values, number + 1)
         + TableRows(table[1..], number + 1 + |table[0].values|)
  }

  // --- reading it back ---

  lemma {:induction false} WordEndIs(s: string, i: nat, j: nat)
    requires i <= j <= |s| && (forall k :: i <= k < j ==> IsWord(s[k])) && (j < |s| ==> !IsWord(s[j]))
    ensures WordEnd(s, i) == j
    decreases j - i
  {
    if i < j {
      WordEndIs(s, i + 1, j);
    }
  }

  lemma ModeIsWord(mode: string)
    requires mode in MODES
    ensures IsName(mode) && Upper(mode) == mode
  {
  }

  lemma HeaderReads(b: Block)
    requires b.mode in MODES && IsName(b.itemType)
    ensures HeadOf(HeaderText(b)) == Some(Head(b.mode, b.itemType, Join(b.columns, ';')))
  {
    hide Join, Upper;
    var line, columns := HeaderText(b), Join(b.columns, ';');
    var m, u := |b.mode|, |b.mode| + 1 + |b.itemType|;
    ModeIsWord(b.mode);
    assert line[..m] == b.mode && line[m] == ' ' && line[m + 1..u] == b.itemType && line[u] == ';';
    assert line[u + 1..] == columns;
    WordEndIs(line, 0, m);
    assert SpacesEnd(line, m) == m + 1 by {
      assert IsSpaceAt(line, m) && line[m + 1] == b.itemType[0] && IsWord(b.itemType[0]);
    }
    WordEndIs(line, m + 1, u);
    assert SpacesEnd(line, u) == u;
  }

  lemma ValueIsNoHeader(values: seq<string>)
    ensures HeadOf(ValueText(values)) == None && MacroOf(ValueText(values)) == None && Carries(ValueText(values))
  {
    hide Join;
    var line := ValueText(values);
    assert line[0] == ';';
    assert WordEnd(line, 0) == 0 && line[..0] == [] && Upper([]) == [];
  }

  lemma {:induction false} JoinEnd(cells: seq<string>)
    requires forall k :: 0 <= k < |cells| ==> Stripped(cells[k])
    ensures var j := Join(cells, ';'); j == [] || !IsSpace(j[|j| - 1])
    decreases |cells|
  {
    if |cells| == 1 {
      assert Stripped(cells[0]);
    } else if cells != [] {
      JoinEnd(cells[1..]);
    }
  }

  lemma {:induction false} JoinOneLine(cells: seq<string>)
    requires forall k :: 0 <= k < |cells| ==> '\n' !in cells[k]
    ensures '\n' !in Join(cells, ';')
    decreases |cells|
  {
    if cells != [] {
      JoinOneLine(cells[1..]);
    }
  }

  /** A printed line is one line, and stripping leaves it alone. */
  lemma LineStands(front: string, cells: seq<string>)
    requires (front == [] || !IsSpace(front[0])) && '\n' !in front && AreCells(cells)
    ensures var line := front + ";" + Join(cells, ';');
      Strip(line) == line && '\n' !in line
  {
    hide Join, Strip, Whole;
    assert forall k :: 0 <= k < |cells| ==> IsCell(cells[k]);
    JoinEnd(cells);
    JoinOneLine(cells);
    var line := front + ";" + Join(cells, ';');
    assert Stripped(line);
    StripStripped(line);
  }

  lemma CellsRead(cells: seq<string>)
    requires AreCells(cells)
    ensures Cells(Join(cells, ';')) == Some(cells)
    ensures Cells(ValueText(cells)) == Some([""] + cells)
  {
    hide Join, Whole, Stripped, Cells;
    assert forall k :: 0 <= k < |cells| ==> IsCell(cells[k]);
    CellsOfJoin(cells);
    JoinCons("", cells, ';');
    assert "" + ([';'] + Join(cells, ';')) == ValueText(cells);
    NothingIsWhole();
    CellsOfJoin([""] + cells);
  }

  lemma NothingIsWhole()
    ensures Whole("") && Stripped("")
  {
    NothingSealed();
  }

  /** Without definitions there is nothing to substitute. */
  ghost predicate Substitutes(expand: (string, Macros) -> string) {
    forall s :: expand(s, map[]) == s
  }

  lemma HeaderRead(expand: (string, Macros) -> string, b: Block, number: nat)
    requires Substitutes(expand) && BlockFits(b)
    ensures ReadLine(expand, map[], number, HeaderText(b)) == (map[], Some(HeaderRow(b, number)))
    ensures '\n' !in HeaderText(b)
  {
    hide Cells, HeadOf, Strip, Join, AreCells, Upper;
    var line, front := HeaderText(b), b.mode + " " + b.itemType;
    ModeIsWord(b.mode);
    assert front[0] == b.mode[0] && IsWord(b.mode[0]);
    assert line[0] == front[0];
    assert '\n' !in front by {
      NameOneLine(b.mode);
      NameOneLine(b.itemType);
    }
    LineStands(front, b.columns);
    HeaderReads(b);
    CellsRead(b.columns);
    assert MacroOf(line) == None && Carries(line);
  }

  lemma NameOneLine(name: string)
    requires IsName(name)
    ensures '\n' !in name
  {
  }

  lemma ValueRead(expand: (string, Macros) -> string, values: seq<string>, number: nat)
    requires Substitutes(expand) && AreCells(values)
    ensures ReadLine(expand, map[], number, ValueText(values)) == (map[], Some(ValueRow(values, number)))
    ensures '\n' !in ValueText(values)
  {
    hide Cells, HeadOf, Strip, Join, AreCells, MacroOf, Carries;
    assert [] + ";" + Join(values, ';') == ValueText(values);
    LineStands([], values);
    ValueIsNoHeader(values);
    CellsRead(values);
    assert ([""] + values)[1..] == values;
  }

  lemma {:induction false} ReadInTwo(expand: (string, Macros) -> string, number: nat, values: seq<seq<string>>, rest: seq<string>)
    requires Substitutes(expand) && forall k :: 0 <= k < |values| ==> AreCells(values[k])
    ensures ReadLines(expand, map[], number, Map(ValueText, values) + rest)
         == ValueRows(values, number) + ReadLines(expand, map[], number + |values|, rest)
    decreases |values|
  {
    hide ReadLine, ValueText, AreCells;
    if values == [] {
      assert Map(ValueText, values) + rest == rest;
    } else {
      ValueRead(expand, values[0], number);
      assert Map(ValueText, values) == [ValueText(values[0])] + Map(ValueText, values[1..]);
      var lines := Map(ValueText, values) + rest;
      assert lines[0] == ValueText(values[0]) && lines[1..] == Map(ValueText, values[1..]) + rest;
      ReadInTwo(expand, number + 1, values[1..], rest);
    }
  }

  /** A printed table reads back as its rows. */
  lemma {:induction false} TableReads(expand: (string, Macros) -> string, table: seq<Block>, number: nat)
    requires Substitutes(expand) && forall k :: 0 <= k < |table| ==> BlockFits(table[k])
    ensures ReadLines(expand, map[], number, TableLines(table)) == TableRows(table, number)
    decreases |table|
  {
    hide ReadLine, HeaderText, ValueText, BlockFits, AreCells, HeaderRow, ValueRows;
    if table != [] {
      var b, rest := table[0], TableLines(table[1..]);
      HeaderRead(expand, b, number);
      var lines := TableLines(table);
      assert lines[0] == HeaderText(b) && lines[1..] == Map(ValueText, b.values) + rest;
      BlockValues(b);
      ReadInTwo(expand, number + 1, b.values, rest);
      TableReads(expand, table[1..], number + 1 + |b.values|);
    }
  }

  lemma BlockValues(b: Block)
    requires BlockFits(b)
    ensures forall k :: 0 <= k < |b.values| ==> AreCells(b.values[k])
  {
  }

  predicate AreLines(lines: seq<string>) {
    forall k :: 0 <= k < |lines| ==> '\n' !in lines[k]
  }

  lemma AreLinesBoth(a: seq<string>, b: seq<string>)
    requires AreLines(a) && AreLines(b)
    ensures AreLines(a + b)
  {
  }

  lemma ValuesAreLines(expand: (string, Macros) -> string, values: seq<seq<string>>)
    requires Substitutes(expand) && forall k :: 0 <= k < |values| ==> AreCells(values[k])
    ensures AreLines(Map(ValueText, values))
  {
    hide ValueText, AreCells;
    forall k | 0 <= k < |values|
      ensures '\n' !in Map(ValueText, values)[k]
    {
      ValueRead(expand, values[k], 1);
    }
  }

  lemma BlockAreLines(expand: (string, Macros) -> string, b: Block)
    requires Substitutes(expand) && BlockFits(b)
    ensures AreLines(BlockLines(b))
  {
    hide HeaderText, BlockFits, AreCells, Map;
    HeaderRead(expand, b, 1);
    BlockValues(b);
    ValuesAreLines(expand, b.values);
    AreLinesBoth([HeaderText(b)], Map(ValueText, b.values));
  }

  lemma {:induction false} TableAreLines(expand: (string, Macros) -> string, table: seq<Block>)
    requires Substitutes(expand) && forall k :: 0 <= k < |table| ==> BlockFits(table[k])
    ensures AreLines(TableLines(table))
    decreases |table|
  {
    hide BlockLines, BlockFits, AreLines;
    if table == [] {
      assert AreLines([]) by {
        NoLines();
      }
    } else {
      BlockAreLines(expand, table[0]);
      TableAreLines(expand, table[1..]);
      AreLinesBoth(BlockLines(table[0]), TableLines(table[1..]));
    }
  }

  lemma NoLines()
    ensures AreLines([])
  {
  }

  // --- its problems ---

  /** The value lines that do not fill their header, counted from line `number`. */
  function Misfits(columns: seq<string>, values: seq<seq<string>>, number: nat): seq<Problem>
    decreases |values|
  {
    if values == [] then []
    else (if Fills(columns, values[0]) then [] else [WrongCount(number, |values[0]|, |columns|)])
         + Misfits(columns, values[1..], number + 1)
  }

  function TableMisfits(table: seq<Block>, number: nat): seq<Problem>
    decreases |table|
  {
    if table == [] then []
    else Misfits(table[0].columns, table[0].values, number + 1)
         + TableMisfits(table[1..], number + 1 + |table[0].values|)
  }

  /** The problems of rows under what stands above the first. */
  function ProblemsFrom(above: Above, rows: seq<ImpexRow>): seq<Problem>
    decreases |rows|
  {
    if rows == [] then []
    else if rows[0].mode != "" then ProblemsFrom(AboveOf(rows[0]), rows[1..])
    else Listed(ProblemUnder(above, rows[0])) + ProblemsFrom(above, rows[1..])
  }

  lemma {:induction false} FromIsOf(rows: seq<ImpexRow>, k: nat)
    requires k <= |rows|
    ensures ProblemsOf(rows, k) + ProblemsFrom(LastHeader(rows, k), rows[k..]) == ProblemsOf(rows, |rows|)
    decreases |rows| - k
  {
    hide ProblemUnder;
    if k < |rows| {
      assert rows[k..][1..] == rows[k + 1..];
      FromIsOf(rows, k + 1);
    }
  }

  lemma Regroup<T>(a: seq<T>, b: seq<T>, c: seq<T>)
    ensures a + (b + c) == a + b + c
  {
  }

  lemma ValueUnder(columns: seq<string>, values: seq<string>, number: nat)
    ensures Listed(ProblemUnder(Columns(columns), ValueRow(values, number)))
         == if Fills(columns, values) then [] else [WrongCount(number, |values|, |columns|)]
  {
    hide Fills, ValueText;
  }

  lemma {:induction false} ValuesUnder(columns: seq<string>, values: seq<seq<string>>, number: nat, rest: seq<ImpexRow>)
    ensures ProblemsFrom(Columns(columns), ValueRows(values, number) + rest)
         == Misfits(columns, values, number) + ProblemsFrom(Columns(columns), rest)
    decreases |values|
  {
    hide Fills, ValueText, ProblemUnder;
    var rows := ValueRows(values, number) + rest;
    if values == [] {
      assert rows == rest;
    } else {
      assert rows[0] == ValueRow(values[0], number) && rows[1..] == ValueRows(values[1..], number + 1) + rest;
      ValueUnder(columns, values[0], number);
      ValuesUnder(columns, values[1..], number + 1, rest);
      Regroup(Listed(ProblemUnder(Columns(columns), rows[0])), Misfits(columns, values[1..], number + 1),
              ProblemsFrom(Columns(columns), rest));
    }
  }

  lemma {:induction false} TableProblems(table: seq<Block>, number: nat, above: Above)
    requires forall k :: 0 <= k < |table| ==> BlockFits(table[k])
    ensures ProblemsFrom(above, TableRows(table, number)) == TableMisfits(table, number)
    decreases |table|
  {
    hide AreCells, IsName, ProblemUnder, HeaderText, Join, ValueRows, Misfits, Fills;
    if table != [] {
      var b := table[0];
      assert BlockFits(b);
      var rest := TableRows(table[1..], number + 1 + |b.values|);
      var rows := TableRows(table, number);
      assert rows[0] == HeaderRow(b, number) && rows[1..] == ValueRows(b.values, number + 1) + rest;
      assert b.mode != "";
      ValuesUnder(b.columns, b.values, number + 1, rest);
      TableProblems(table[1..], number + 1 + |b.values|, Columns(b.columns));
    }
  }

  /** What is reported of a printed table is exactly the value lines that neither have as many cells as their header nor
      fill as many, each with its line and both counts. */
  lemma PrintedTable(expand: (string, Macros) -> string, table: seq<Block>)
    requires Substitutes(expand) && forall k :: 0 <= k < |table| ==> BlockFits(table[k])
    ensures var rows := ReadLines(expand, map[], 1, UnifiedDiff.SplitLines(UnifiedDiff.Unlines(TableLines(table))));
      rows == TableRows(table, 1) && ProblemsOf(rows, |rows|) == TableMisfits(table, 1)
  {
    hide BlockFits, TableRows, ReadLines, UnifiedDiff.SplitLines, UnifiedDiff.Unlines;
    TableAreLines(expand, table);
    UnifiedDiff.SplitLinesUnlines(TableLines(table));
    TableReads(expand, table, 1);
    var rows := TableRows(table, 1);
    FromIsOf(rows, 0);
    assert rows[0..] == rows && [] + ProblemsFrom(Nothing, rows) == ProblemsFrom(Nothing, rows);
    TableProblems(table, 1, Nothing);
  }

  /** In particular a table of full rows has no problem. */
  lemma FullTable(expand: (string, Macros) -> string, table: seq<Block>)
    requires Substitutes(expand) && forall k :: 0 <= k < |table| ==> BlockFits(table[k])
    requires forall k :: 0 <= k < |table| ==> IsFull(table[k])
    ensures var rows := ReadLines(expand, map[], 1, UnifiedDiff.SplitLines(UnifiedDiff.Unlines(TableLines(table))));
      ProblemsOf(rows, |rows|) == []
  {
    hide IsFull, TableLines, ReadLines, UnifiedDiff.SplitLines, UnifiedDiff.Unlines, TableMisfits, BlockFits;
    PrintedTable(expand, table);
    NoMisfits(table, 1);
  }

  predicate IsFull(b: Block) {
    forall k :: 0 <= k < |b.values| ==> |b.values[k]| == |b.columns|
  }

  lemma {:induction false} NoMisfits(table: seq<Block>, number: nat)
    requires forall k :: 0 <= k < |table| ==> IsFull(table[k])
    ensures TableMisfits(table, number) == []
    decreases |table|
  {
    if table != [] {
      assert IsFull(table[0]);
      NoMisfit(table[0].columns, table[0].values, number + 1);
      NoMisfits(table[1..], number + 1 + |table[0].values|);
    }
  }

  lemma {:induction false} NoMisfit(columns: seq<string>, values: seq<seq<string>>, number: nat)
    requires forall k :: 0 <= k < |values| ==> |values[k]| == |columns|
    ensures Misfits(columns, values, number) == []
    decreases |values|
  {
    if values != [] {
      NoMisfit(columns, values[1..], number + 1);
    }
  }
}
