// The line numbers of a diff: what the hunk walker counts, against what applying the patch does.
module DiffLines {
  import opened Strings
  import opened UnifiedDiff

  // --- walking one hunk ---

  /** Which side of the diff a walk reports. `Any` reports the new side with its context. */
  datatype Side = NewSide | OldSide | AnySide

  type Numbered = seq<(nat, string)>

  /** What one line reports, and the counter behind it. */
  function WalkLine(raw: string, side: Side, current: nat): (Numbered, nat) {
    if StartsWith(raw, "@@") || StartsWith(raw, "+++") || StartsWith(raw, "---") then ([], current)
    else if StartsWith(raw, "+") then if side.OldSide? then ([], current) else ([(current, raw[1..])], current + 1)
    else if StartsWith(raw, "-") then if side.OldSide? then ([(current, raw[1..])], current + 1) else ([], current)
    else (if side.AnySide? then [(current, if raw != "" then raw[1..] else raw)] else [], current + 1)
  }

  function Walk(lines: seq<string>, side: Side, current: nat): Numbered {
    if lines == [] then []
    else
      var (found, next) := WalkLine(lines[0], side, current);
      found + Walk(lines[1..], side, next)
  }

  function FirstNumber(hunk: Hunk, side: Side): nat {
    if side.OldSide? then hunk.oldStart else hunk.newStart
  }

  function HunkWalk(hunk: Hunk, side: Side): Numbered {
    Walk(SplitLines(hunk.content), side, FirstNumber(hunk, side))
  }

  /** The walker as written. */
  method IterHunkLines(hunk: Hunk, side: Side) returns (out: Numbered)
    ensures out == HunkWalk(hunk, side)
    ensures forall h | HunkPrints(h) && HunkMeaning(h) == hunk :: out == WalkedOn(side, h)
  {
    hide Walk, SplitLines, FirstNumber, HunkPrints, HunkMeaning, WalkedOn;
    out := [];
    var current := FirstNumber(hunk, side);
    var lines := SplitLines(hunk.content);
    for k := 0 to |lines|
      invariant HunkWalk(hunk, side) == out + Walk(lines[k..], side, current)
    {
      var raw := lines[k];
      assert lines[k..][0] == raw;
      WalkOne(out, lines[k..], side, current);
      assert lines[k..][1..] == lines[k + 1..];
      if StartsWith(raw, "@@") || StartsWith(raw, "+++") || StartsWith(raw, "---") {
        continue;
      }
      if StartsWith(raw, "+") {
        if !side.OldSide? {
          out := out + [(current, raw[1..])];
          current := current + 1;
        }
        continue;
      }
      if StartsWith(raw, "-") {
        if side.OldSide? {
          out := out + [(current, raw[1..])];
          current := current + 1;
        }
        continue;
      }
      if side.AnySide? {
        out := out + [(current, if raw != "" then raw[1..] else raw)];
      }
      current := current + 1;
    }
    WalkNothing(out, side, current);
    forall h | HunkPrints(h) && HunkMeaning(h) == hunk
      ensures HunkWalk(hunk, side) == WalkedOn(side, h)
    {
      PrintedWalks(h, side);
    }
  }

  lemma WalkNothing(out: Numbered, side: Side, current: nat)
    ensures out + Walk([], side, current) == out
  {
  }

  lemma WalkOne(out: Numbered, lines: seq<string>, side: Side, current: nat)
    requires lines != []
    ensures var (found, next) := WalkLine(lines[0], side, current);
      out + Walk(lines, side, current) == out + found + Walk(lines[1..], side, next)
  {
  }

  /** The numbers of a list of numbered lines. */
  function Numbers(lines: Numbered): set<nat> {
    set p | p in lines :: p.0
  }

  // --- what the numbers should be ---

  /** Whether `e` is one of the lines the walk of `side` is after. */
  predicate Mine(side: Side, e: Edit) {
    if side.OldSide? then e.Remove? else e.Add?
  }

  /** Whether `e` stands on the given side of the diff. */
  predicate On(side: Side, e: Edit) {
    e.Context? || Mine(side, e)
  }

  /** The lines of `side` in a hunk body that are not context, numbered from `current`. */
  function TrueNumbers(side: Side, body: seq<Edit>, current: nat): Numbered {
    if body == [] then []
    else
      (if Mine(side, body[0]) then [(current, body[0].text)] else [])
      + TrueNumbers(side, body[1..], if On(side, body[0]) then current + 1 else current)
  }

  /** The doubled sign that makes a body line read as a file header. */
  function Doubled(side: Side): string {
    if side.OldSide? then "--" else "++"
  }

  /** No line of `side` starts with the doubled sign, and none stands behind a `\ No newline` marker. */
  predicate Clean(side: Side, body: seq<Edit>) {
    body == []
    || (&& (Mine(side, body[0]) ==> !StartsWith(body[0].text, Doubled(side)))
        && (body[0].NoNewline? ==> forall k :: 1 <= k < |body| ==> !Mine(side, body[k]))
        && Clean(side, body[1..]))
  }

  /** What the walker reports of a printed body. */
  function Walked(side: Side, body: seq<Edit>, current: nat): Numbered {
    if body == [] then []
    else
      var e, rest := body[0], body[1..];
      if Mine(side, e) then
        if StartsWith(e.text, Doubled(side)) then Walked(side, rest, current)
        else [(current, e.text)] + Walked(side, rest, current + 1)
      else Walked(side, rest, if e.Context? || e.NoNewline? then current + 1 else current)
  }

  /** What the walker reports of a printed body when the context counts, too: a marker passes for context. */
  function WalkedAny(body: seq<Edit>, current: nat): Numbered {
    if body == [] then []
    else
      match body[0]
      case Add(text) =>
        if StartsWith(text, "++") then WalkedAny(body[1..], current)
        else [(current, text)] + WalkedAny(body[1..], current + 1)
      case Remove(_) => WalkedAny(body[1..], current)
      case Context(text) => [(current, text)] + WalkedAny(body[1..], current + 1)
      case NoNewline => [(current, " No newline at end of file")] + WalkedAny(body[1..], current + 1)
  }

  /** The lines of the new side, context and all, numbered from `current`. */
  function TrueAny(body: seq<Edit>, current: nat): Numbered {
    if body == [] then []
    else
      match body[0]
      case Add(text) => [(current, text)] + TrueAny(body[1..], current + 1)
      case Context(text) => [(current, text)] + TrueAny(body[1..], current + 1)
      case _ => TrueAny(body[1..], current)
  }

  lemma WalksLine(e: Edit)
    ensures var raw := EditLine(e);
      && !StartsWith(raw, "@@")
      && (StartsWith(raw, "+") <==> e.Add?) && (StartsWith(raw, "-") <==> e.Remove?)
      && (StartsWith(raw, "+++") <==> e.Add? && StartsWith(e.text, "++"))
      && (StartsWith(raw, "---") <==> e.Remove? && StartsWith(e.text, "--"))
      && (if e.NoNewline? then raw[1..] == " No newline at end of file" else raw[1..] == e.text)
      && raw != ""
  {
    var raw := EditLine(e);
    FirstCharacter(raw, "@@");
    FirstCharacter(raw, "+");
    FirstCharacter(raw, "-");
    FirstCharacter(raw, "+++");
    FirstCharacter(raw, "---");
    if e.Add? {
      SameTail('+', e.text, "++");
    }
    if e.Remove? {
      SameTail('-', e.text, "--");
    }
  }

  lemma FirstCharacter(raw: string, word: string)
    requires word != ""
    ensures StartsWith(raw, word) ==> raw != "" && raw[0] == word[0]
  {
  }

  lemma {:induction false} WalkIsWalked(side: Side, body: seq<Edit>, current: nat)
    ensures Walk(EditLines(body), side, current)
         == if side.AnySide? then WalkedAny(body, current) else Walked(side, body, current)
    decreases |body|
  {
    hide StartsWith, EditLine;
    if body != [] {
      WalksLine(body[0]);
      assert EditLines(body)[0] == EditLine(body[0]);
      assert EditLines(body)[1..] == EditLines(body[1..]);
      WalkIsWalked(side, body[1..], current);
      WalkIsWalked(side, body[1..], current + 1);
    }
  }

  /** The content of a printed hunk splits back into its header and its body lines. */
  lemma ContentLines(h: PatchHunk)
    requires HunkPrints(h)
    ensures SplitLines(HunkMeaning(h).content) == HunkLines(h)
  {
    hide HeaderLine, EditLine, OneLine, Join, Split;
    var lines := HunkLines(h);
    forall k | 0 <= k < |lines|
      ensures '\n' !in lines[k] && lines[k] != ""
    {
      if k == 0 {
        NumbersOnOneLine(h);
        HeaderLineReads(h);
      } else {
        EditOnOneLine(h.body[k - 1]);
      }
    }
    SplitJoin(lines, '\n');
  }

  lemma WalkOfPrinted(h: PatchHunk, side: Side)
    requires HunkPrints(h)
    ensures var first := FirstNumber(HunkMeaning(h), side);
      HunkWalk(HunkMeaning(h), side) == if side.AnySide? then WalkedAny(h.body, first) else Walked(side, h.body, first)
  {
    hide HeaderLine, SplitLines, HunkPrints, HunkMeaning, EditLine;
    var start := FirstNumber(HunkMeaning(h), side);
    ContentLines(h);
    var lines := HunkLines(h);
    HeaderLineStarts(h);
    assert lines[1..] == EditLines(h.body);
    WalkIsWalked(side, h.body, start);
    assert [] + Walk(lines[1..], side, start) == Walk(lines[1..], side, start);
  }

  /** What the walker yields of a printed hunk, on each side. */
  function WalkedOn(side: Side, h: PatchHunk): Numbered {
    match side
    case NewSide => Walked(NewSide, h.body, h.newStart)
    case OldSide => Walked(OldSide, h.body, h.oldStart)
    case AnySide => WalkedAny(h.body, h.newStart)
  }

  lemma PrintedWalks(h: PatchHunk, side: Side)
    requires HunkPrints(h)
    ensures HunkWalk(HunkMeaning(h), side) == WalkedOn(side, h)
  {
    WalkOfPrinted(h, side);
    hide HunkWalk, HunkPrints, Walked, WalkedAny, HunkLines;
  }

  lemma HeaderLineStarts(h: PatchHunk)
    ensures StartsWith(HeaderLine(h), "@@")
  {
    assert HeaderLine(h)[..2] == "@@";
  }

  // --- the walker's numbers are right exactly on clean bodies ---

  function FirstParts(lines: Numbered): (r: seq<nat>)
    ensures |r| == |lines| && forall k :: 0 <= k < |lines| ==> r[k] == lines[k].0
  {
    seq(|lines|, k requires 0 <= k < |lines| => lines[k].0)
  }

  predicate Increasing(s: seq<nat>, from: nat) {
    (forall k :: 0 <= k < |s| ==> from <= s[k]) && forall a, b :: 0 <= a < b < |s| ==> s[a] < s[b]
  }

  lemma {:induction false} WalkedIncreases(side: Side, body: seq<Edit>, current: nat)
    ensures Increasing(FirstParts(Walked(side, body, current)), current)
    decreases |body|
  {
    if body != [] {
      WalkedIncreases(side, body[1..], current);
      WalkedIncreases(side, body[1..], current + 1);
    }
  }

  lemma {:induction false} TrueIncreases(side: Side, body: seq<Edit>, current: nat)
    ensures Increasing(FirstParts(TrueNumbers(side, body, current)), current)
    decreases |body|
  {
    if body != [] {
      TrueIncreases(side, body[1..], current);
      TrueIncreases(side, body[1..], current + 1);
    }
  }

  /** Two increasing lists of the same numbers are the same list. */
  lemma {:induction false} SameSetSameList(a: seq<nat>, b: seq<nat>, from: nat)
    requires Increasing(a, from) && Increasing(b, from)
    requires forall n: nat :: n in a <==> n in b
    ensures a == b
  {
    assert (a != [] ==> a[0] in a) && (b != [] ==> b[0] in b);
    if a == [] || b == [] {
      assert a == b;
    } else {
      assert a[0] in b && b[0] in a;
      assert a[0] == b[0];
      forall n: nat
        ensures n in a[1..] <==> n in b[1..]
      {
        assert n in a <==> n == a[0] || n in a[1..];
        assert n in b <==> n == b[0] || n in b[1..];
      }
      SameSetSameList(a[1..], b[1..], from);
      assert a == [a[0]] + a[1..] && b == [b[0]] + b[1..];
    }
  }

  lemma {:induction false} WalkedNoLonger(side: Side, body: seq<Edit>, c1: nat, c2: nat)
    ensures |Walked(side, body, c1)| <= |TrueNumbers(side, body, c2)|
    decreases |body|
  {
    if body != [] {
      WalkedNoLonger(side, body[1..], c1, c2);
      WalkedNoLonger(side, body[1..], c1 + 1, c2);
      WalkedNoLonger(side, body[1..], c1, c2 + 1);
      WalkedNoLonger(side, body[1..], c1 + 1, c2 + 1);
    }
  }

  /** A counter that is ahead never catches up with the truth while a line is still to come. */
  lemma {:induction false} AheadStaysAhead(side: Side, body: seq<Edit>, c1: nat, c2: nat)
    requires c1 > c2 && exists k :: 0 <= k < |body| && Mine(side, body[k])
    ensures FirstParts(Walked(side, body, c1)) != FirstParts(TrueNumbers(side, body, c2))
    decreases |body|
  {
    var e, rest := body[0], body[1..];
    if Mine(side, e) {
      if StartsWith(e.text, Doubled(side)) {
        WalkedNoLonger(side, rest, c1, c2 + 1);
      } else {
        assert FirstParts(Walked(side, body, c1))[0] == c1;
        assert FirstParts(TrueNumbers(side, body, c2))[0] == c2;
      }
    } else {
      var k :| 0 <= k < |body| && Mine(side, body[k]);
      assert rest[k - 1] == body[k];
      var d := if e.Context? || e.NoNewline? then 1 else 0;
      AheadStaysAhead(side, rest, c1 + d, if e.Context? then c2 + 1 else c2);
    }
  }

  lemma {:induction false} NoneMine(side: Side, body: seq<Edit>, c1: nat, c2: nat)
    requires forall k :: 0 <= k < |body| ==> !Mine(side, body[k])
    ensures Walked(side, body, c1) == TrueNumbers(side, body, c2) == []
    ensures Clean(side, body)
    decreases |body|
  {
    if body != [] {
      NoneMine(side, body[1..], c1, c2);
      NoneMine(side, body[1..], c1 + 1, c2);
      NoneMine(side, body[1..], c1 + 1, c2 + 1);
    }
  }

  lemma OneMorePart(p: (nat, string), w: Numbered, t: Numbered)
    ensures FirstParts([p] + w) == FirstParts([p] + t) <==> FirstParts(w) == FirstParts(t)
  {
    assert FirstParts([p] + w) == [p.0] + FirstParts(w) && FirstParts([p] + t) == [p.0] + FirstParts(t);
    assert ([p.0] + FirstParts(w))[1..] == FirstParts(w) && ([p.0] + FirstParts(t))[1..] == FirstParts(t);
  }

  lemma {:induction false} WalkedIffClean(side: Side, body: seq<Edit>, current: nat)
    ensures FirstParts(Walked(side, body, current)) == FirstParts(TrueNumbers(side, body, current)) <==> Clean(side, body)
    ensures Clean(side, body) ==> Walked(side, body, current) == TrueNumbers(side, body, current)
    decreases |body|
  {
    hide StartsWith, FirstParts, Doubled;
    if body != [] {
      var e, rest := body[0], body[1..];
      WalkedIffClean(side, rest, current);
      WalkedIffClean(side, rest, current + 1);
      if Mine(side, e) {
        MineDecides(side, body, current);
      } else if e.NoNewline? {
        MarkerDecides(side, rest, current);
        NoneBehind(side, body);
      } else {
        OthersAgree(side, body, current);
      }
    }
  }

  lemma OthersAgree(side: Side, body: seq<Edit>, current: nat)
    requires body != [] && !Mine(side, body[0]) && !body[0].NoNewline?
    ensures var next := if body[0].Context? then current + 1 else current;
      && Walked(side, body, current) == Walked(side, body[1..], next)
      && TrueNumbers(side, body, current) == TrueNumbers(side, body[1..], next)
      && (Clean(side, body) <==> Clean(side, body[1..]))
  {
    var next := if body[0].Context? then current + 1 else current;
    assert [] + TrueNumbers(side, body[1..], next) == TrueNumbers(side, body[1..], next);
  }

  lemma NoneBehind(side: Side, body: seq<Edit>)
    requires body != []
    ensures (forall k :: 1 <= k < |body| ==> !Mine(side, body[k]))
      <==> forall k :: 0 <= k < |body[1..]| ==> !Mine(side, body[1..][k])
  {
    assert forall k :: 0 <= k < |body[1..]| ==> body[1..][k] == body[k + 1];
    assert forall k :: 1 <= k < |body| ==> body[k] == body[1..][k - 1];
  }

  /** A line of the side is lost when it starts with the doubled sign, and numbered alike otherwise. */
  lemma MineDecides(side: Side, body: seq<Edit>, current: nat)
    requires body != [] && Mine(side, body[0])
    ensures var w, t := Walked(side, body, current), TrueNumbers(side, body, current);
      var w', t' := Walked(side, body[1..], current + 1), TrueNumbers(side, body[1..], current + 1);
      && (FirstParts(w) == FirstParts(t)
          <==> !StartsWith(body[0].text, Doubled(side)) && FirstParts(w') == FirstParts(t'))
      && (!StartsWith(body[0].text, Doubled(side)) && w' == t' ==> w == t)
  {
    hide StartsWith, FirstParts;
    var e, rest := body[0], body[1..];
    WalkedNoLonger(side, rest, current, current + 1);
    OneMorePart((current, e.text), Walked(side, rest, current + 1), TrueNumbers(side, rest, current + 1));
  }

  /** Behind a marker the two counters differ, which shows exactly when a line of the side follows. */
  lemma MarkerDecides(side: Side, rest: seq<Edit>, current: nat)
    ensures FirstParts(Walked(side, rest, current + 1)) == FirstParts(TrueNumbers(side, rest, current))
      <==> forall k :: 0 <= k < |rest| ==> !Mine(side, rest[k])
    ensures (forall k :: 0 <= k < |rest| ==> !Mine(side, rest[k]))
      ==> Clean(side, rest) && Walked(side, rest, current + 1) == TrueNumbers(side, rest, current)
  {
    if forall k :: 0 <= k < |rest| ==> !Mine(side, rest[k]) {
      NoneMine(side, rest, current + 1, current);
    } else {
      AheadStaysAhead(side, rest, current + 1, current);
    }
  }

  /** On a printed hunk the walker's line numbers are the true ones if and only if the body is clean: a
      `\ No newline` marker shifts every later line of the side, a line that starts with the doubled sign is lost. */
  lemma NumbersRightIffClean(h: PatchHunk, side: Side)
    requires HunkPrints(h) && !side.AnySide?
    ensures var start := FirstNumber(HunkMeaning(h), side);
      Numbers(HunkWalk(HunkMeaning(h), side)) == Numbers(TrueNumbers(side, h.body, start)) <==> Clean(side, h.body)
  {
    var start := FirstNumber(HunkMeaning(h), side);
    var w, t := Walked(side, h.body, start), TrueNumbers(side, h.body, start);
    WalkOfPrinted(h, side);
    WalkedIffClean(side, h.body, start);
    NumbersAreFirstParts(w);
    NumbersAreFirstParts(t);
    if Numbers(w) == Numbers(t) {
      WalkedIncreases(side, h.body, start);
      TrueIncreases(side, h.body, start);
      SameSetSameList(FirstParts(w), FirstParts(t), start);
    }
  }

  lemma NumbersAreFirstParts(lines: Numbered)
    ensures forall n: nat :: n in Numbers(lines) <==> n in FirstParts(lines)
  {
    forall n: nat
      ensures n in Numbers(lines) <==> n in FirstParts(lines)
    {
      if n in Numbers(lines) {
        var p :| p in lines && p.0 == n;
        var k :| 0 <= k < |lines| && lines[k] == p;
        assert FirstParts(lines)[k] == n;
      }
      if n in FirstParts(lines) {
        var k :| 0 <= k < |lines| && FirstParts(lines)[k] == n;
        assert lines[k] in lines;
      }
    }
  }

  // --- with the context ---

  /** How many added lines start with two plus signs, and how many markers there are. */
  function Doubles(body: seq<Edit>): nat {
    if body == [] then 0
    else (if body[0].Add? && StartsWith(body[0].text, "++") then 1 else 0) + Doubles(body[1..])
  }

  function Markers(body: seq<Edit>): nat {
    if body == [] then 0 else (if body[0].NoNewline? then 1 else 0) + Markers(body[1..])
  }

  /** How many of the lines have a text that starts with two plus signs. */
  function PlusTexts(lines: Numbered): nat {
    if lines == [] then 0 else (if StartsWith(lines[0].1, "++") then 1 else 0) + PlusTexts(lines[1..])
  }

  lemma PlusNext(n: nat, text: string, lines: Numbered)
    ensures PlusTexts([(n, text)] + lines) == (if StartsWith(text, "++") then 1 else 0) + PlusTexts(lines)
  {
    assert ([(n, text)] + lines)[1..] == lines;
  }

  lemma MarkerStartsOtherwise()
    ensures !StartsWith(" No newline at end of file", "++")
  {
    FirstCharacter(" No newline at end of file", "++");
  }

  /** A doubled sign loses a line, one of those that start with two plus signs; a marker adds one that does not. */
  lemma {:induction false} AnyCounts(body: seq<Edit>, c1: nat, c2: nat)
    ensures |WalkedAny(body, c1)| + Doubles(body) == |TrueAny(body, c2)| + Markers(body)
    ensures PlusTexts(WalkedAny(body, c1)) + Doubles(body) == PlusTexts(TrueAny(body, c2))
  {
    if body != [] {
      var rest, d := body[1..], body[0].Add? && StartsWith(body[0].text, "++");
      var n1 := if body[0].Remove? || d then c1 else c1 + 1;
      var n2 := if body[0].Remove? || body[0].NoNewline? then c2 else c2 + 1;
      AnyCounts(rest, n1, n2);
      var text := if body[0].NoNewline? then " No newline at end of file" else body[0].text;
      MarkerStartsOtherwise();
      PlusNext(c1, text, WalkedAny(rest, n1));
      PlusNext(c2, text, TrueAny(rest, n2));
      hide PlusTexts;
    }
  }

  lemma {:induction false} AnyAgree(body: seq<Edit>, current: nat)
    requires Doubles(body) == 0 && Markers(body) == 0
    ensures WalkedAny(body, current) == TrueAny(body, current)
  {
    if body != [] {
      AnyAgree(body[1..], current);
      AnyAgree(body[1..], current + 1);
    }
  }

  /** With the context the walker yields the true numbered lines if and only if no added line starts with two plus signs
      and no marker stands in the body. */
  lemma AnyRightIff(h: PatchHunk)
    requires HunkPrints(h)
    ensures HunkWalk(HunkMeaning(h), AnySide) == TrueAny(h.body, h.newStart) <==> Doubles(h.body) == 0 && Markers(h.body) == 0
  {
    WalkOfPrinted(h, AnySide);
    AnyCounts(h.body, h.newStart, h.newStart);
    hide WalkedAny, TrueAny, HunkWalk, HunkPrints;
    if Doubles(h.body) == 0 && Markers(h.body) == 0 {
      AnyAgree(h.body, h.newStart);
    }
  }
}
