// One ImpEx line cut into its cells: at every `;` outside quotes.
module ImpexCells {
  import opened Strings
  import opened Sorting

  // --- the splitter ---

  /** Whether a quote is open at the end of `s`. */
  predicate OpenAt(s: string) {
    s != [] && (OpenAt(s[..|s| - 1]) <==> s[|s| - 1] != '"')
  }

  /** Where the splitter stands after some text: the cells cut off, the one under way, and whether a quote is open. */
  datatype Cutter = Cutter(cells: seq<string>, current: string, quoted: bool)

  function Cut(c: Cutter, ch: char): Cutter {
    var quoted := if ch == '"' then !c.quoted else c.quoted;
    if ch == ';' && !quoted then Cutter(c.cells + [c.current], [], quoted)
    else Cutter(c.cells, c.current + [ch], quoted)
  }

  function Scan(c: Cutter, text: string): Cutter
    decreases |text|
  {
    if text == [] then c else Cut(Scan(c, text[..|text| - 1]), text[|text| - 1])
  }

  const START := Cutter([], [], false)

  /** The cells of a line, or nothing when a quote is left open. */
  function Cells(text: string): Option<seq<string>> {
    var c := Scan(START, text);
    if c.quoted then None else Some(Map(Strip, c.cells + [c.current]))
  }

  method SplitCells(text: string) returns (cells: Option<seq<string>>)
    ensures cells == Cells(text)
    ensures cells.None? <==> OpenAt(text)
  {
    hide Strip, OpenAt;
    var done: seq<string>, current: string, quoted := [], [], false;
    ghost var raw: seq<string> := [];
    for k := 0 to |text|
      invariant Scan(START, text[..k]) == Cutter(raw, current, quoted) && done == Map(Strip, raw)
    {
      assert text[..k + 1][..k] == text[..k];
      if text[k] == '"' {
        quoted := !quoted;
      }
      if text[k] == ';' && !quoted {
        done := done + [Strip(current)];
        raw := raw + [current];
        current := [];
      } else {
        current := current + [text[k]];
      }
    }
    assert text[..|text|] == text;
    QuoteIsParity(START, text);
    assert !OpenAt([]) by {
      OpenIsOdd([]);
    }
    assert Map(Strip, raw + [current]) == done + [Strip(current)];
    return if quoted then None else Some(done + [Strip(current)]);
  }

  /** A quote is open exactly after an odd number of them. */
  lemma {:induction false} QuoteIsParity(c: Cutter, text: string)
    ensures Scan(c, text).quoted == (c.quoted != OpenAt(text))
    decreases |text|
  {
    if text != [] {
      QuoteIsParity(c, text[..|text| - 1]);
    }
  }

  /** The line is unreadable exactly when its quotes do not pair up. */
  lemma {:induction false} OpenIsOdd(text: string)
    ensures OpenAt(text) <==> Quotes(text) % 2 == 1
  {
    if text != [] {
      OpenIsOdd(text[..|text| - 1]);
      assert text == text[..|text| - 1] + [text[|text| - 1]];
      FilterNext(IsQuote, text, |text| - 1);
      assert text[..|text| - 1 + 1] == text;
    }
  }

  predicate IsQuote(c: char) {
    c == '"'
  }

  function Quotes(s: string): nat {
    Count(IsQuote, s)
  }

  // --- splitting and joining are inverse ---

  /** Text that may stand as a cell: its quotes pair up and every `;` in it is quoted. */
  predicate Whole(p: string) {
    !OpenAt(p) && Sealed(p)
  }

  predicate Sealed(p: string) {
    forall i :: 0 <= i < |p| && p[i] == ';' ==> OpenAt(p[..i])
  }

  lemma {:induction false} ScanInTwo(c: Cutter, a: string, b: string)
    ensures Scan(c, a + b) == Scan(Scan(c, a), b)
    decreases |b|
  {
    if b == [] {
      assert a + b == a;
    } else {
      assert (a + b)[..|a + b| - 1] == a + b[..|b| - 1];
      ScanInTwo(c, a, b[..|b| - 1]);
    }
  }

  /** Within a cell nothing is cut. */
  lemma {:induction false} ScanSealed(cells: seq<string>, p: string)
    requires Sealed(p)
    ensures Scan(Cutter(cells, [], false), p) == Cutter(cells, p, OpenAt(p))
    decreases |p|
  {
    if p != [] {
      var front := p[..|p| - 1];
      assert forall i :: 0 <= i < |front| ==> front[..i] == p[..i];
      ScanSealed(cells, front);
      assert front + [p[|p| - 1]] == p;
    }
  }

  lemma JoinCons(p: string, rest: seq<string>, glue: char)
    requires rest != []
    ensures Join([p] + rest, glue) == p + ([glue] + Join(rest, glue))
  {
    assert ([p] + rest)[1..] == rest;
  }

  /** Splitting undoes joining: cells that may stand as such come back as they went in. */
  lemma {:induction false} ScanOfJoin(before: seq<string>, pieces: seq<string>)
    requires pieces != [] && forall k :: 0 <= k < |pieces| ==> Whole(pieces[k])
    ensures Scan(Cutter(before, [], false), Join(pieces, ';'))
         == Cutter(before + pieces[..|pieces| - 1], pieces[|pieces| - 1], false)
    decreases |pieces|
  {
    hide Scan, Join, Sealed, OpenAt;
    var p, others := pieces[0], pieces[1..];
    assert Whole(p);
    ScanSealed(before, p);
    if others != [] {
      var rest := Join(others, ';');
      assert pieces == [p] + others;
      JoinCons(p, others, ';');
      ScanInTwo(Cutter(before, [], false), p, [';'] + rest);
      ScanInTwo(Cutter(before, p, false), [';'], rest);
      ScanOne(Cutter(before, p, false), ';');
      ScanOfJoin(before + [p], others);
      assert before + [p] + others[..|others| - 1] == before + pieces[..|pieces| - 1];
    } else {
      assert pieces == [p];
      JoinOne(p, ';');
      assert before + [] == before;
    }
  }

  lemma JoinOne(p: string, glue: char)
    ensures Join([p], glue) == p
  {
  }

  lemma ScanOne(c: Cutter, ch: char)
    ensures Scan(c, [ch]) == Cut(c, ch)
  {
    assert [ch][..0] == [];
  }

  lemma StripStripped(s: string)
    requires Stripped(s)
    ensures Strip(s) == s
  {
  }

  lemma StripAll(pieces: seq<string>)
    requires forall k :: 0 <= k < |pieces| ==> Stripped(pieces[k])
    ensures Map(Strip, pieces) == pieces
  {
    hide Strip, Stripped;
    forall k | 0 <= k < |pieces|
      ensures Map(Strip, pieces)[k] == pieces[k]
    {
      StripStripped(pieces[k]);
    }
  }

  lemma CellsFrom(text: string, cells: seq<string>, current: string)
    requires Scan(START, text) == Cutter(cells, current, false)
    ensures Cells(text) == Some(Map(Strip, cells + [current]))
  {
    hide Scan;
  }

  lemma CellsOfJoin(pieces: seq<string>)
    requires pieces != []
    requires forall k :: 0 <= k < |pieces| ==> Whole(pieces[k])
    requires forall k :: 0 <= k < |pieces| ==> Stripped(pieces[k])
    ensures Cells(Join(pieces, ';')) == Some(pieces)
  {
    hide Scan, Join, Whole, Stripped, Map, Strip, Cells;
    var front, last := pieces[..|pieces| - 1], pieces[|pieces| - 1];
    ScanOfJoin([], pieces);
    assert [] + front == front && front + [last] == pieces;
    CellsFrom(Join(pieces, ';'), front, last);
    StripAll(pieces);
  }

  /** What the splitter holds of the text behind it: its pieces make up that text, and each may stand as a cell. */
  ghost predicate Holds(c: Cutter, text: string) {
    && Join(c.cells + [c.current], ';') == text
    && (forall k :: 0 <= k < |c.cells| ==> Whole(c.cells[k]))
    && Sealed(c.current) && OpenAt(c.current) == c.quoted
  }

  lemma SealedNext(p: string, ch: char)
    requires Sealed(p) && (ch == ';' ==> OpenAt(p))
    ensures Sealed(p + [ch])
  {
    hide OpenAt;
    assert forall i :: 0 <= i <= |p| ==> (p + [ch])[..i] == p[..i];
    assert p[..|p|] == p;
  }

  lemma OpenNext(p: string, ch: char)
    ensures OpenAt(p + [ch]) <==> (OpenAt(p) <==> ch != '"')
  {
    assert (p + [ch])[..|p|] == p;
  }

  lemma HoldsNext(c: Cutter, text: string, ch: char)
    requires Holds(c, text)
    ensures Holds(Cut(c, ch), text + [ch])
  {
    hide Join, OpenAt, Sealed;
    var next := Cut(c, ch);
    if ch == ';' && !c.quoted {
      JoinAppend(c.cells + [c.current], [], ';');
      assert text + [';'] + [] == text + [';'];
      OpenIsOdd([]);
      NothingSealed();
    } else {
      JoinExtend(c.cells, c.current, [ch], ';');
      OpenNext(c.current, ch);
      SealedNext(c.current, ch);
    }
  }

  lemma NothingSealed()
    ensures Sealed([]) && !OpenAt([])
  {
  }

  /** And joining undoes splitting: the pieces cut off make up the line, and each may stand as a cell. So every readable
      line is cut the one way it can be. */
  lemma {:induction false} ScanJoins(text: string)
    ensures Holds(Scan(START, text), text)
    decreases |text|
  {
    hide Holds, Cut;
    if text == [] {
      StartHolds();
    } else {
      var front, ch := text[..|text| - 1], text[|text| - 1];
      ScanJoins(front);
      HoldsNext(Scan(START, front), front, ch);
      assert front + [ch] == text;
    }
  }

  lemma StartHolds()
    ensures Holds(START, [])
  {
    assert [] + [START.current] == [START.current];
  }

  lemma {:induction false} JoinAppend(lines: seq<string>, last: string, glue: char)
    requires lines != []
    ensures Join(lines + [last], glue) == Join(lines, glue) + [glue] + last
  {
    if |lines| > 1 {
      JoinAppend(lines[1..], last, glue);
      assert (lines + [last])[1..] == lines[1..] + [last];
      assert lines[0] + [glue] + (Join(lines[1..], glue) + [glue] + last)
          == lines[0] + [glue] + Join(lines[1..], glue) + [glue] + last;
    } else {
      assert (lines + [last])[1..] == [last];
    }
  }

  lemma {:induction false} JoinExtend(lines: seq<string>, last: string, more: string, glue: char)
    ensures Join(lines + [last + more], glue) == Join(lines + [last], glue) + more
  {
    if lines == [] {
      assert lines + [last + more] == [last + more] && lines + [last] == [last];
    } else {
      JoinAppend(lines, last + more, glue);
      JoinAppend(lines, last, glue);
    }
  }

  function Pieces(c: Cutter): seq<string> {
    c.cells + [c.current]
  }

  /** A readable line is a join of pieces that may stand as cells in exactly one way, the one the splitter finds; an
      unreadable line is none. */
  lemma CutIffJoined(text: string, pieces: seq<string>)
    ensures (pieces != [] && (forall k :: 0 <= k < |pieces| ==> Whole(pieces[k])) && Join(pieces, ';') == text)
       <==> (!Scan(START, text).quoted && pieces == Pieces(Scan(START, text)))
  {
    hide Scan, Join;
    var c := Scan(START, text);
    if pieces != [] && (forall k :: 0 <= k < |pieces| ==> Whole(pieces[k])) && Join(pieces, ';') == text {
      var front, last := pieces[..|pieces| - 1], pieces[|pieces| - 1];
      ScanOfJoin([], pieces);
      assert [] + front == front && front + [last] == pieces;
    }
    if !c.quoted && pieces == Pieces(c) {
      ScanJoins(text);
    }
  }
}
