// What a diff means for the file it is a diff of: applying the patch, and the line numbers that follow.
module PatchApply {
  import opened Strings
  import opened UnifiedDiff
  import opened DiffLines

  /** The lines of a body that stand on one side. */
  function Lines(side: Side, body: seq<Edit>): seq<string> {
    if body == [] then []
    else (if On(side, body[0]) then [body[0].text] else []) + Lines(side, body[1..])
  }

  /** A line of the new file, and the line of the old file it was carried over from, if any (both from 0). */
  datatype Origin = Origin(text: string, from: Option<nat>)

  /** Lines `i` to `p` of the old file, untouched. */
  function Kept(before: seq<string>, i: nat, p: nat): (r: seq<Origin>)
    requires i <= p <= |before|
    ensures |r| == p - i && forall k :: 0 <= k < p - i ==> r[k] == Origin(before[i + k], Some(i + k))
  {
    seq(p - i, k requires 0 <= k < p - i => Origin(before[i + k], Some(i + k)))
  }

  /** What a hunk body makes of the old lines from `p` on. */
  function Edited(body: seq<Edit>, p: nat): seq<Origin> {
    if body == [] then []
    else
      match body[0]
      case Context(t) => [Origin(t, Some(p))] + Edited(body[1..], p + 1)
      case Add(t) => [Origin(t, None)] + Edited(body[1..], p)
      case Remove(_) => Edited(body[1..], p + 1)
      case NoNewline => Edited(body[1..], p)
  }

  /** Where a hunk takes hold, from 0: its start line, or behind it when the side is empty. */
  function At0(side: Side, h: PatchHunk): int {
    var start := if side.OldSide? then h.oldStart else h.newStart;
    if Lines(side, h.body) == [] then start else start - 1
  }

  /** The hunks are in order and their old lines are the file's, from old line `i` on. */
  predicate FitsOld(before: seq<string>, hunks: seq<PatchHunk>, i: nat)
    decreases |hunks|
  {
    if hunks == [] then i <= |before|
    else
      var h := hunks[0];
      var p, n := At0(OldSide, h), |Lines(OldSide, h.body)|;
      && Span(h.oldCount) == n && i <= p && p + n <= |before|
      && before[p..p + n] == Lines(OldSide, h.body)
      && FitsOld(before, hunks[1..], p + n)
  }

  /** The new ranges say where each hunk lands when old line `i` has become new line `j`. */
  predicate Placed(hunks: seq<PatchHunk>, i: nat, j: nat)
    decreases |hunks|
  {
    if hunks == [] then true
    else
      var h := hunks[0];
      var p, q := At0(OldSide, h), At0(NewSide, h);
      var n, m := |Lines(OldSide, h.body)|, |Lines(NewSide, h.body)|;
      && Span(h.newCount) == m && i <= p && q == j + (p - i)
      && Placed(hunks[1..], p + n, q + m)
  }

  /** The new file from old line `i` on: unlisted lines are carried over, listed ones edited. */
  function Apply(before: seq<string>, hunks: seq<PatchHunk>, i: nat): seq<Origin>
    requires FitsOld(before, hunks, i)
    decreases |hunks|
  {
    if hunks == [] then Kept(before, i, |before|)
    else
      var p, n := At0(OldSide, hunks[0]), |Lines(OldSide, hunks[0].body)|;
      Kept(before, i, p) + (Edited(hunks[0].body, p) + Apply(before, hunks[1..], p + n))
  }

  // --- what the walker should report: the lines of the new file that came from nowhere, the old lines that went nowhere ---

  /** The lines of `news` that were not carried over; `j` new lines stand in front of them. */
  function Fresh(news: seq<Origin>, j: nat): Numbered {
    if news == [] then []
    else (if news[0].from.None? then [(j + 1, news[0].text)] else []) + Fresh(news[1..], j + 1)
  }

  /** The numbers a clean walk gives all hunks together. */
  function AllNumbers(side: Side, hunks: seq<PatchHunk>): Numbered {
    if hunks == [] then []
    else
      TrueNumbers(side, hunks[0].body, if side.OldSide? then hunks[0].oldStart else hunks[0].newStart)
      + AllNumbers(side, hunks[1..])
  }

  lemma {:induction false} FreshConcat(a: seq<Origin>, b: seq<Origin>, j: nat)
    ensures Fresh(a + b, j) == Fresh(a, j) + Fresh(b, j + |a|)
    decreases |a|
  {
    if a == [] {
      assert a + b == b;
    } else {
      assert (a + b)[1..] == a[1..] + b && (a + b)[0] == a[0];
      FreshConcat(a[1..], b, j + 1);
      var first := if a[0].from.None? then [(j + 1, a[0].text)] else [];
      Associate(first, Fresh(a[1..], j + 1), Fresh(b, j + |a|));
    }
  }

  lemma Associate<T>(a: seq<T>, b: seq<T>, c: seq<T>)
    ensures a + (b + c) == a + b + c
  {
  }

  lemma {:induction false} KeptIsNotFresh(news: seq<Origin>, j: nat)
    requires forall k :: 0 <= k < |news| ==> news[k].from.Some?
    ensures Fresh(news, j) == []
    decreases |news|
  {
    if news != [] {
      KeptIsNotFresh(news[1..], j + 1);
    }
  }

  lemma {:induction false} EditedIsFresh(body: seq<Edit>, p: nat, q: nat)
    ensures Fresh(Edited(body, p), q) == TrueNumbers(NewSide, body, q + 1)
    ensures |Edited(body, p)| == |Lines(NewSide, body)|
    decreases |body|
  {
    if body != [] {
      var rest := body[1..];
      match body[0]
      case Context(t) =>
        EditedIsFresh(rest, p + 1, q + 1);
        FreshConcat([Origin(t, Some(p))], Edited(rest, p + 1), q);
        KeptIsNotFresh([Origin(t, Some(p))], q);
      case Add(t) =>
        EditedIsFresh(rest, p, q + 1);
        FreshConcat([Origin(t, None)], Edited(rest, p), q);
        FreshOne(t, q);
      case Remove(_) => EditedIsFresh(rest, p + 1, q);
      case NoNewline => EditedIsFresh(rest, p, q);
    }
  }

  lemma FreshOne(t: string, q: nat)
    ensures Fresh([Origin(t, None)], q) == [(q + 1, t)]
  {
    assert [Origin(t, None)][1..] == [];
  }

  lemma {:induction false} NoLinesNoNumbers(side: Side, body: seq<Edit>, c: nat, c': nat)
    requires Lines(side, body) == []
    ensures TrueNumbers(side, body, c) == TrueNumbers(side, body, c')
    decreases |body|
  {
    if body != [] {
      NoLinesNoNumbers(side, body[1..], c, c');
    }
  }

  /** The numbers and texts on the new side are the lines of the new file that were not carried over, in order. */
  lemma {:induction false} AddedAreFresh(before: seq<string>, hunks: seq<PatchHunk>, i: nat, j: nat)
    requires FitsOld(before, hunks, i) && Placed(hunks, i, j)
    ensures AllNumbers(NewSide, hunks) == Fresh(Apply(before, hunks, i), j)
    decreases |hunks|
  {
    hide Lines, Edited, Fresh, TrueNumbers, Kept;
    if hunks == [] {
      KeptIsNotFresh(Apply(before, hunks, i), j);
    } else {
      var h := hunks[0];
      var p, q := At0(OldSide, h), At0(NewSide, h);
      var n, m := |Lines(OldSide, h.body)|, |Lines(NewSide, h.body)|;
      var rest := Apply(before, hunks[1..], p + n);
      AddedAreFresh(before, hunks[1..], p + n, q + m);
      FreshHunk(h, Kept(before, i, p), rest, p, j);
    }
  }

  lemma FreshHunk(h: PatchHunk, kept: seq<Origin>, rest: seq<Origin>, p: nat, j: nat)
    requires forall k :: 0 <= k < |kept| ==> kept[k].from.Some?
    requires At0(NewSide, h) == j + |kept|
    ensures Fresh(kept + (Edited(h.body, p) + rest), j)
         == TrueNumbers(NewSide, h.body, h.newStart) + Fresh(rest, j + |kept| + |Lines(NewSide, h.body)|)
  {
    hide Lines, Edited, Fresh, TrueNumbers;
    var q, edited := j + |kept|, Edited(h.body, p);
    FreshConcat(kept, edited + rest, j);
    KeptIsNotFresh(kept, j);
    FreshConcat(edited, rest, q);
    EditedIsFresh(h.body, p, q);
    if Lines(NewSide, h.body) == [] {
      NoLinesNoNumbers(NewSide, h.body, q + 1, h.newStart);
    }
    assert [] + Fresh(edited + rest, q) == Fresh(edited + rest, q);
  }

  /** What `Fresh` lists, said without recursion. */
  lemma {:induction false} FreshIs(news: seq<Origin>, j: nat, n: nat, t: string)
    ensures (n, t) in Fresh(news, j)
      <==> j < n <= j + |news| && news[n - 1 - j] == Origin(t, None)
    decreases |news|
  {
    if news != [] {
      FreshIs(news[1..], j + 1, n, t);
      if n == j + 1 {
        assert (n, t) !in Fresh(news[1..], j + 1);
      }
    }
  }

  // --- the old side ---

  /** Some new line was carried over from old line `k`. */
  ghost predicate From(news: seq<Origin>, k: nat) {
    exists m :: 0 <= m < |news| && news[m].from == Some(k)
  }

  lemma FromConcat(a: seq<Origin>, b: seq<Origin>, k: nat)
    ensures From(a + b, k) <==> From(a, k) || From(b, k)
  {
    if From(a, k) {
      var m :| 0 <= m < |a| && a[m].from == Some(k);
      assert (a + b)[m] == a[m];
    }
    if From(b, k) {
      var m :| 0 <= m < |b| && b[m].from == Some(k);
      assert (a + b)[|a| + m] == b[m];
    }
  }

  lemma FromKept(before: seq<string>, i: nat, p: nat, k: nat)
    requires i <= p <= |before|
    ensures From(Kept(before, i, p), k) <==> i <= k < p
  {
    if i <= k < p {
      assert Kept(before, i, p)[k - i].from == Some(k);
    }
  }

  lemma FromOne(x: Origin, k: nat)
    ensures From([x], k) <==> x.from == Some(k)
  {
    if x.from == Some(k) {
      assert [x][0].from == Some(k);
    }
  }

  /** Of the old lines a body covers, each is either carried over or reported removed. */
  lemma {:induction false} EditedOld(body: seq<Edit>, p: nat, k: nat, t: string)
    ensures From(Edited(body, p), k) ==> p <= k < p + |Lines(OldSide, body)|
    ensures (k + 1, t) in TrueNumbers(OldSide, body, p + 1)
      <==> p <= k < p + |Lines(OldSide, body)| && Lines(OldSide, body)[k - p] == t && !From(Edited(body, p), k)
    decreases |body|
  {
    if body != [] {
      var rest := body[1..];
      match body[0]
      case Context(s) =>
        EditedOld(rest, p + 1, k, t);
        FromConcat([Origin(s, Some(p))], Edited(rest, p + 1), k);
        FromOne(Origin(s, Some(p)), k);
        OldNext(body, p);
      case Add(s) =>
        EditedOld(rest, p, k, t);
        FromConcat([Origin(s, None)], Edited(rest, p), k);
        FromOne(Origin(s, None), k);
        OldNext(body, p);
      case Remove(s) =>
        EditedOld(rest, p + 1, k, t);
        OldNext(body, p);
      case NoNewline =>
        EditedOld(rest, p, k, t);
        OldNext(body, p);
    }
  }

  /** The first edit of a body on the old side. */
  lemma OldNext(body: seq<Edit>, p: nat)
    requires body != []
    ensures var e, rest := body[0], body[1..];
      && Lines(OldSide, body) == (if e.Context? || e.Remove? then [e.text] else []) + Lines(OldSide, rest)
      && TrueNumbers(OldSide, body, p + 1)
         == (if e.Remove? then [(p + 1, e.text)] else [])
            + TrueNumbers(OldSide, rest, if e.Context? || e.Remove? then p + 2 else p + 1)
  {
  }

  /** The numbers and texts on the old side are the lines of the old file that were not carried over. */
  lemma {:induction false} RemovedAreGone(before: seq<string>, hunks: seq<PatchHunk>, i: nat, k: nat, t: string)
    requires FitsOld(before, hunks, i)
    ensures From(Apply(before, hunks, i), k) ==> i <= k < |before|
    ensures (k + 1, t) in AllNumbers(OldSide, hunks)
      <==> i <= k < |before| && before[k] == t && !From(Apply(before, hunks, i), k)
    decreases |hunks|
  {
    hide From, Edited, Lines, TrueNumbers, Apply, AllNumbers;
    FitsOldBounds(before, hunks, i);
    if hunks == [] {
      ApplyNothing(before, i, k, t);
    } else {
      var h := hunks[0];
      var p, n := At0(OldSide, h), |Lines(OldSide, h.body)|;
      RemovedAreGone(before, hunks[1..], p + n, k, t);
      FitsOldBounds(before, hunks[1..], p + n);
      ApplyFrom(before, hunks, i, k, t);
      GoneFromHunk(before, h, p, k, t);
    }
  }

  lemma ApplyNothing(before: seq<string>, i: nat, k: nat, t: string)
    requires i <= |before|
    ensures From(Apply(before, [], i), k) <==> i <= k < |before|
    ensures (k + 1, t) !in AllNumbers(OldSide, [])
  {
    FromKept(before, i, |before|, k);
  }

  /** A line of the patched file comes from the gap, the hunk or the rest; a removed one from the hunk or the rest. */
  lemma ApplyFromHunk(before: seq<string>, hunks: seq<PatchHunk>, i: nat, k: nat)
    requires hunks != [] && FitsOld(before, hunks, i)
    ensures var h := hunks[0];
      var p, n := At0(OldSide, h), |Lines(OldSide, h.body)|;
      && (From(Apply(before, hunks, i), k)
          <==> i <= k < p || From(Edited(h.body, p), k) || From(Apply(before, hunks[1..], p + n), k))
  {
    hide From, Edited, Lines;
    var h := hunks[0];
    var p, n := At0(OldSide, h), |Lines(OldSide, h.body)|;
    var rest := Apply(before, hunks[1..], p + n);
    FromKept(before, i, p, k);
    FromConcat(Kept(before, i, p), Edited(h.body, p) + rest, k);
    FromConcat(Edited(h.body, p), rest, k);
  }

  lemma ApplyFrom(before: seq<string>, hunks: seq<PatchHunk>, i: nat, k: nat, t: string)
    requires hunks != [] && FitsOld(before, hunks, i)
    ensures var h := hunks[0];
      var p, n := At0(OldSide, h), |Lines(OldSide, h.body)|;
      && (From(Apply(before, hunks, i), k)
          <==> i <= k < p || From(Edited(h.body, p), k) || From(Apply(before, hunks[1..], p + n), k))
      && ((k + 1, t) in AllNumbers(OldSide, hunks)
          <==> (k + 1, t) in TrueNumbers(OldSide, h.body, h.oldStart) || (k + 1, t) in AllNumbers(OldSide, hunks[1..]))
  {
    hide From, Edited, Lines, TrueNumbers, Apply, FitsOld, At0;
    ApplyFromHunk(before, hunks, i, k);
  }

  lemma GoneFromHunk(before: seq<string>, h: PatchHunk, p: nat, k: nat, t: string)
    requires p == At0(OldSide, h)
    requires p + |Lines(OldSide, h.body)| <= |before| && before[p..p + |Lines(OldSide, h.body)|] == Lines(OldSide, h.body)
    ensures From(Edited(h.body, p), k) ==> p <= k < p + |Lines(OldSide, h.body)|
    ensures (k + 1, t) in TrueNumbers(OldSide, h.body, h.oldStart)
      <==> p <= k < p + |Lines(OldSide, h.body)| && before[k] == t && !From(Edited(h.body, p), k)
  {
    hide From, Edited, Lines, TrueNumbers;
    EditedOld(h.body, p, k, t);
    if Lines(OldSide, h.body) == [] {
      NoLinesNoNumbers(OldSide, h.body, p + 1, h.oldStart);
    }
  }

  lemma FitsOldBounds(before: seq<string>, hunks: seq<PatchHunk>, i: nat)
    requires FitsOld(before, hunks, i)
    ensures i <= |before|
  {
  }

  /** A carried-over line keeps its text. */
  lemma {:induction false} EditedKeepsText(body: seq<Edit>, p: nat, m: nat)
    requires m < |Edited(body, p)| && Edited(body, p)[m].from.Some?
    ensures var k := Edited(body, p)[m].from.value;
      p <= k < p + |Lines(OldSide, body)| && Edited(body, p)[m].text == Lines(OldSide, body)[k - p]
    decreases |body|
  {
    var rest := body[1..];
    match body[0]
    case Context(_) => if m > 0 { EditedKeepsText(rest, p + 1, m - 1); }
    case Add(_) => EditedKeepsText(rest, p, m - 1);
    case Remove(_) => EditedKeepsText(rest, p + 1, m);
    case NoNewline => EditedKeepsText(rest, p, m);
  }

  lemma {:induction false} CarriedTextIsOld(before: seq<string>, hunks: seq<PatchHunk>, i: nat, m: nat)
    requires FitsOld(before, hunks, i) && m < |Apply(before, hunks, i)| && Apply(before, hunks, i)[m].from.Some?
    ensures var o := Apply(before, hunks, i)[m];
      i <= o.from.value < |before| && o.text == before[o.from.value]
    decreases |hunks|
  {
    if hunks != [] {
      var h := hunks[0];
      var p, n := At0(OldSide, h), |Lines(OldSide, h.body)|;
      var a, e := p - i, |Edited(h.body, p)|;
      if a <= m < a + e {
        EditedKeepsText(h.body, p, m - a);
        var k := Edited(h.body, p)[m - a].from.value;
        assert before[k] == before[p..p + n][k - p];
      } else if m >= a + e {
        CarriedTextIsOld(before, hunks[1..], p + n, m - a - e);
      }
    }
  }

  lemma {:induction false} BodyLength(body: seq<Edit>, c: nat, d: nat)
    ensures |Lines(NewSide, body)| + |TrueNumbers(OldSide, body, c)|
         == |Lines(OldSide, body)| + |TrueNumbers(NewSide, body, d)|
    decreases |body|
  {
    if body != [] {
      BodyLength(body[1..], if On(OldSide, body[0]) then c + 1 else c, if On(NewSide, body[0]) then d + 1 else d);
    }
  }

  /** The file grows by what is added and shrinks by what is removed. */
  lemma {:induction false} LengthDifference(before: seq<string>, hunks: seq<PatchHunk>, i: nat)
    requires FitsOld(before, hunks, i)
    ensures |Apply(before, hunks, i)| + |AllNumbers(OldSide, hunks)| == |before| - i + |AllNumbers(NewSide, hunks)|
    decreases |hunks|
  {
    if hunks != [] {
      var h := hunks[0];
      var p, n := At0(OldSide, h), |Lines(OldSide, h.body)|;
      LengthDifference(before, hunks[1..], p + n);
      BodyLength(h.body, h.oldStart, h.newStart);
      EditedIsFresh(h.body, p, 0);
    }
  }

  // --- added_lines ---

  /** A Python dictionary: its entries in insertion order. */
  type Dict<T> = seq<(string, T)>

  function Put<T>(d: Dict<T>, key: string, value: T): Dict<T> {
    if d == [] then [(key, value)]
    else if d[0].0 == key then [(key, value)] + d[1..]
    else [d[0]] + Put(d[1..], key, value)
  }

  /** The new-side line numbers a file diff adds. */
  function AddedOf(hunks: seq<Hunk>): set<nat> {
    if hunks == [] then {} else Numbers(HunkWalk(hunks[0], NewSide)) + AddedOf(hunks[1..])
  }

  function AddedLines(diffs: seq<FileDiff>): Dict<set<nat>> {
    if diffs == [] then []
    else
      var last := diffs[|diffs| - 1];
      Put(AddedLines(diffs[..|diffs| - 1]), last.path, AddedOf(last.hunks))
  }

  predicate CleanHunks(side: Side, hunks: seq<PatchHunk>) {
    forall k :: 0 <= k < |hunks| ==> HunkPrints(hunks[k]) && Clean(side, hunks[k].body)
  }

  /** What the walker reports of all hunks of a file. */
  function AllWalks(side: Side, hunks: seq<Hunk>): Numbered {
    if hunks == [] then [] else HunkWalk(hunks[0], side) + AllWalks(side, hunks[1..])
  }

  /** On clean hunks the walker reports the true numbers, on either side. */
  lemma {:induction false} WalksAreTrue(side: Side, hunks: seq<PatchHunk>)
    requires !side.AnySide? && CleanHunks(side, hunks)
    ensures AllWalks(side, HunkMeanings(hunks)) == AllNumbers(side, hunks)
    decreases |hunks|
  {
    if hunks != [] {
      WalksAreTrue(side, hunks[1..]);
      assert HunkMeanings(hunks)[1..] == HunkMeanings(hunks[1..]);
      WalkOfPrinted(hunks[0], side);
      WalkedIffClean(side, hunks[0].body, FirstNumber(HunkMeaning(hunks[0]), side));
    }
  }

  lemma {:induction false} AddedOfWalks(hunks: seq<Hunk>)
    ensures AddedOf(hunks) == Numbers(AllWalks(NewSide, hunks))
    decreases |hunks|
  {
    if hunks != [] {
      AddedOfWalks(hunks[1..]);
      NumbersConcat(HunkWalk(hunks[0], NewSide), AllWalks(NewSide, hunks[1..]));
    }
  }

  lemma AddedOfClean(hunks: seq<PatchHunk>)
    requires CleanHunks(NewSide, hunks)
    ensures AddedOf(HunkMeanings(hunks)) == Numbers(AllNumbers(NewSide, hunks))
  {
    AddedOfWalks(HunkMeanings(hunks));
    WalksAreTrue(NewSide, hunks);
  }

  lemma NumbersConcat(a: Numbered, b: Numbered)
    ensures Numbers(a + b) == Numbers(a) + Numbers(b)
  {
  }

  /** The line numbers of the new file that were not carried over from the old one. */
  ghost function FreshLines(before: seq<string>, hunks: seq<PatchHunk>): set<nat>
    requires FitsOld(before, hunks, 0)
  {
    var news := Apply(before, hunks, 0);
    set n: nat | n <= |news| && IsFresh(news, n)
  }

  /** New line `n` (from 1) was carried over from nowhere. */
  predicate IsFresh(news: seq<Origin>, n: nat) {
    1 <= n <= |news| && news[n - 1].from.None?
  }

  /** The numbers 1 to `k`. */
  ghost function OneTo(k: nat): set<nat> {
    set n: nat | n <= k && IsLine(n, k)
  }

  predicate IsLine(n: nat, k: nat) {
    1 <= n <= k
  }

  /** A file of a patch that applies to `before` and reads cleanly on the new side. */
  predicate AppliesTo(f: PatchFile, before: seq<string>) {
    FitsOld(before, f.hunks, 0) && Placed(f.hunks, 0, 0) && CleanHunks(NewSide, f.hunks)
  }

  /** An entry of the added-line map that says which lines of the file the patch made. */
  ghost predicate ReportsFresh(entry: (string, set<nat>), f: PatchFile, before: seq<string>) {
    AppliesTo(f, before) && entry == (f.path, FreshLines(before, f.hunks))
  }

  lemma AddedOfFile(f: PatchFile, before: seq<string>)
    requires AppliesTo(f, before)
    ensures AddedOf(FileMeaning(f).hunks) == FreshLines(before, f.hunks)
  {
    AddedOfClean(f.hunks);
    AddedAreFresh(before, f.hunks, 0, 0);
    hide Fresh, Apply, AllNumbers, AddedOf, Placed, FitsOld, CleanHunks;
    assert FileMeaning(f).hunks == HunkMeanings(f.hunks);
    FreshNumbers(Apply(before, f.hunks, 0));
  }

  lemma FreshNumbers(news: seq<Origin>)
    ensures Numbers(Fresh(news, 0)) == set n: nat | n <= |news| && IsFresh(news, n)
  {
    hide Fresh;
    forall n: nat
      ensures n in Numbers(Fresh(news, 0)) <==> IsFresh(news, n)
    {
      if IsFresh(news, n) {
        FreshIs(news, 0, n, news[n - 1].text);
        assert (n, news[n - 1].text) in Fresh(news, 0);
      }
      if n in Numbers(Fresh(news, 0)) {
        var x :| x in Fresh(news, 0) && x.0 == n;
        FreshIs(news, 0, n, x.1);
      }
    }
  }

  predicate DistinctPaths(diffs: seq<FileDiff>) {
    forall a, b :: 0 <= a < b < |diffs| ==> diffs[a].path != diffs[b].path
  }

  lemma {:induction false} PutNew<T>(d: Dict<T>, key: string, value: T)
    requires forall k :: 0 <= k < |d| ==> d[k].0 != key
    ensures Put(d, key, value) == d + [(key, value)]
  {
    if d != [] {
      PutNew(d[1..], key, value);
    }
  }

  lemma {:induction false} AddedLinesInOrder(diffs: seq<FileDiff>)
    requires DistinctPaths(diffs)
    ensures |AddedLines(diffs)| == |diffs|
    ensures forall k :: 0 <= k < |diffs| ==> AddedLines(diffs)[k] == (diffs[k].path, AddedOf(diffs[k].hunks))
  {
    if diffs != [] {
      var front, last := diffs[..|diffs| - 1], diffs[|diffs| - 1];
      AddedLinesInOrder(front);
      PutNew(AddedLines(front), last.path, AddedOf(last.hunks));
    }
  }

  /** A dictionary holds each key once. */
  predicate DistinctKeys<T>(d: Dict<T>) {
    forall i, j :: 0 <= i < j < |d| ==> d[i].0 != d[j].0
  }

  /** Putting a value under a key leaves it there, and every other entry. */
  lemma {:induction false} PutHas<T>(d: Dict<T>, key: string, value: T, e: (string, T))
    requires DistinctKeys(d)
    ensures e in Put(d, key, value) <==> e == (key, value) || (e in d && e.0 != key)
  {
    if d != [] {
      var rest := d[1..];
      PutHas(rest, key, value, e);
      assert e in d <==> e == d[0] || e in rest;
      assert e in rest ==> e.0 != d[0].0;
      if d[0].0 != key {
        assert e in Put(d, key, value) <==> e == d[0] || e in Put(rest, key, value);
      }
    }
  }

  lemma {:induction false} PutOnce<T>(d: Dict<T>, key: string, value: T)
    requires DistinctKeys(d)
    ensures DistinctKeys(Put(d, key, value))
  {
    if d != [] {
      var rest, after := d[1..], Put(d, key, value);
      PutOnce(rest, key, value);
      if d[0].0 != key {
        var put := Put(rest, key, value);
        forall j | 1 <= j < |after|
          ensures after[j].0 != d[0].0
        {
          assert after[j] == put[j - 1] && put[j - 1] in put;
          PutHas(rest, key, value, put[j - 1]);
        }
      }
    }
  }

  /** No later file has the path of file `k`. */
  predicate LastOfPath(diffs: seq<FileDiff>, k: int) {
    0 <= k < |diffs| && forall j :: k < j < |diffs| ==> diffs[j].path != diffs[k].path
  }

  /** Whatever the paths: each path of the diff is in the map once, with the lines of the last file that has it. */
  lemma {:induction false} AddedLinesByPath(diffs: seq<FileDiff>)
    ensures DistinctKeys(AddedLines(diffs))
    ensures forall e ::
      (e in AddedLines(diffs) <==> exists k :: LastOfPath(diffs, k) && e == (diffs[k].path, AddedOf(diffs[k].hunks)))
  {
    hide AddedOf;
    if diffs != [] {
      var front, last := diffs[..|diffs| - 1], diffs[|diffs| - 1];
      AddedLinesByPath(front);
      PutOnce(AddedLines(front), last.path, AddedOf(last.hunks));
      assert LastOfPath(diffs, |diffs| - 1);
      forall k | 0 <= k < |front|
        ensures LastOfPath(diffs, k) <==> LastOfPath(front, k) && front[k].path != last.path
      {
        LastStays(diffs, k);
      }
      forall e
        ensures e in AddedLines(diffs) <==> exists k :: LastOfPath(diffs, k) && e == (diffs[k].path, AddedOf(diffs[k].hunks))
      {
        PutHas(AddedLines(front), last.path, AddedOf(last.hunks), e);
        if k :| LastOfPath(front, k) && e == (front[k].path, AddedOf(front[k].hunks)) && e.0 != last.path {
          assert LastOfPath(diffs, k);
        }
      }
    }
  }

  lemma LastStays(diffs: seq<FileDiff>, k: nat)
    requires k < |diffs| - 1
    ensures LastOfPath(diffs, k) <==> LastOfPath(diffs[..|diffs| - 1], k) && diffs[k].path != diffs[|diffs| - 1].path
  {
  }

  /** From the text of a patch to its line numbers: for any old files and any patch that applies to them, the
      added lines of each path are exactly the lines of the new file that were not carried over. */
  lemma AddedLinesOfText(patch: seq<PatchFile>, befores: seq<seq<string>>)
    requires WellFormed(patch) && |befores| == |patch|
    requires forall a, b :: 0 <= a < b < |patch| ==> patch[a].path != patch[b].path
    requires forall k :: 0 <= k < |patch| ==> AppliesTo(patch[k], befores[k])
    ensures var added := AddedLines(Parse(Text(patch)));
      |added| == |patch| && forall k :: 0 <= k < |patch| ==> ReportsFresh(added[k], patch[k], befores[k])
  {
    hide AddedOf, FreshLines, Parse, UnifiedDiff.Text, AddedLines, FitsOld, Placed, CleanHunks, FileFits, HunkMeanings;
    FitsPrints(patch);
    ParsePrinted(patch);
    assert DistinctPaths(Meanings(patch));
    AddedLinesInOrder(Meanings(patch));
    forall k | 0 <= k < |patch|
      ensures ReportsFresh(AddedLines(Meanings(patch))[k], patch[k], befores[k])
    {
      assert AppliesTo(patch[k], befores[k]);
      AddedOfFile(patch[k], befores[k]);
      assert Meanings(patch)[k] == FileMeaning(patch[k]);
    }
  }

  // --- the repository's own printer, which adds every file in full ---

  function Adds(lines: seq<string>): (r: seq<Edit>)
    ensures |r| == |lines| && forall k :: 0 <= k < |lines| ==> r[k] == Add(lines[k])
  {
    seq(|lines|, k requires 0 <= k < |lines| => Add(lines[k]))
  }

  /** A file as one hunk against nothing. */
  function WholeFile(path: string, content: string): PatchFile {
    var lines := SplitLines(content);
    PatchFile(path, path, Status.Added, [], [PatchHunk(0, Some(0), 1, Some(|lines|), "", Adds(lines))])
  }

  function WholeFiles(files: seq<(string, string)>): (r: seq<PatchFile>)
    ensures |r| == |files| && forall k :: 0 <= k < |files| ==> r[k] == WholeFile(files[k].0, files[k].1)
  {
    seq(|files|, k requires 0 <= k < |files| => WholeFile(files[k].0, files[k].1))
  }

  lemma {:induction false} UnlinesConcat(a: seq<string>, b: seq<string>)
    ensures Unlines(a + b) == Unlines(a) + Unlines(b)
  {
    if a == [] {
      assert a + b == b;
    } else {
      assert (a + b)[1..] == a[1..] + b;
      UnlinesConcat(a[1..], b);
    }
  }

  /** The printer as written: one chunk of text per file, and one line per line of content. */
  method DiffOfWholeFiles(files: seq<(string, string)>) returns (text: string)
    ensures text == UnifiedDiff.Text(WholeFiles(files))
  {
    text := "";
    for k := 0 to |files|
      invariant text == UnifiedDiff.Text(WholeFiles(files[..k]))
    {
      var (path, content) := files[k];
      var lines := SplitLines(content);
      var body := "";
      for n := 0 to |lines|
        invariant body == Unlines(EditLines(Adds(lines[..n])))
      {
        BodyGrows(lines, n);
        body := body + ("+" + lines[n] + "\n");
      }
      assert lines[..|lines|] == lines;
      var chunk := ("diff --git a/" + path + " b/" + path + "\n")
        + "new file mode 100644\n"
        + "--- /dev/null\n"
        + ("+++ b/" + path + "\n")
        + ("@@ -0,0 +1," + Decimal(|lines|) + " @@" + "\n") + body;
      ChunkText(path, content, body);
      TextGrows(files, k);
      text := text + chunk;
    }
    assert files[..|files|] == files;
  }

  lemma BodyGrows(lines: seq<string>, n: nat)
    requires n < |lines|
    ensures Unlines(EditLines(Adds(lines[..n + 1])))
         == Unlines(EditLines(Adds(lines[..n]))) + ("+" + lines[n] + "\n")
  {
    var line := "+" + lines[n];
    assert EditLines(Adds(lines[..n + 1])) == EditLines(Adds(lines[..n])) + [line];
    UnlinesConcat(EditLines(Adds(lines[..n])), [line]);
    UnlinesOne(line);
  }

  lemma UnlinesOne(line: string)
    ensures Unlines([line]) == line + "\n"
  {
    assert [line][1..] == [];
  }

  lemma ChunkText(path: string, content: string, body: string)
    requires body == Unlines(EditLines(Adds(SplitLines(content))))
    ensures Unlines(FileLines(WholeFile(path, content)))
         == ("diff --git a/" + path + " b/" + path + "\n")
            + "new file mode 100644\n"
            + "--- /dev/null\n"
            + ("+++ b/" + path + "\n")
            + ("@@ -0,0 +1," + Decimal(|SplitLines(content)|) + " @@" + "\n") + body
  {
    hide EditLines, Adds, SplitLines, Decimal, HeaderLine, AllHunkLines;
    var f := WholeFile(path, content);
    var h := f.hunks[0];
    WholeFileHeader(h, |SplitLines(content)|);
    WholeFileLines(path, content);
    var l1, l2, l3, l4, l5 := GitLine(path, path), "new file mode 100644", "--- /dev/null", "+++ b/" + path, HeaderLine(h);
    UnlinesConcat([l1] + [l2] + [l3] + [l4] + [l5], EditLines(h.body));
    UnlinesFive(l1, l2, l3, l4, l5);
  }

  lemma WholeFileHeader(h: PatchHunk, n: nat)
    requires h.oldStart == 0 && h.oldCount == Some(0) && h.newStart == 1 && h.newCount == Some(n) && h.heading == ""
    ensures HeaderLine(h) == "@@ -0,0 +1," + Decimal(n) + " @@"
  {
    assert Decimal(0) == "0" && Decimal(1) == "1";
    assert RangeText(0, Some(0)) == "0,0";
    assert RangeText(1, Some(n)) == "1," + Decimal(n);
  }

  lemma WholeFileLines(path: string, content: string)
    ensures var f := WholeFile(path, content);
      FileLines(f) == [GitLine(path, path)] + ["new file mode 100644"] + ["--- /dev/null"] + ["+++ b/" + path]
                      + [HeaderLine(f.hunks[0])] + EditLines(f.hunks[0].body)
  {
    hide EditLines, Adds, HeaderLine, GitLine, SplitLines;
    var f := WholeFile(path, content);
    assert f.hunks[1..] == [];
    assert AllHunkLines(f.hunks) == [HeaderLine(f.hunks[0])] + EditLines(f.hunks[0].body);
  }

  lemma UnlinesFive(a: string, b: string, c: string, d: string, e: string)
    ensures Unlines([a] + [b] + [c] + [d] + [e])
         == (a + "\n") + (b + "\n") + (c + "\n") + (d + "\n") + (e + "\n")
  {
    UnlinesConcat([a] + [b] + [c] + [d], [e]);
    UnlinesConcat([a] + [b] + [c], [d]);
    UnlinesConcat([a] + [b], [c]);
    UnlinesConcat([a], [b]);
    UnlinesOne(a);
    UnlinesOne(b);
    UnlinesOne(c);
    UnlinesOne(d);
    UnlinesOne(e);
  }

  lemma {:induction false} PatchLinesConcat(a: seq<PatchFile>, b: seq<PatchFile>)
    ensures PatchLines(a + b) == PatchLines(a) + PatchLines(b)
  {
    if a == [] {
      assert a + b == b;
    } else {
      assert (a + b)[1..] == a[1..] + b;
      PatchLinesConcat(a[1..], b);
    }
  }

  lemma TextGrows(files: seq<(string, string)>, k: nat)
    requires k < |files|
    ensures UnifiedDiff.Text(WholeFiles(files[..k + 1]))
         == UnifiedDiff.Text(WholeFiles(files[..k])) + Unlines(FileLines(WholeFile(files[k].0, files[k].1)))
  {
    hide WholeFile, FileLines;
    var f := WholeFile(files[k].0, files[k].1);
    assert WholeFiles(files[..k + 1]) == WholeFiles(files[..k]) + [f];
    PatchLinesConcat(WholeFiles(files[..k]), [f]);
    assert PatchLines([f]) == FileLines(f) by {
      assert [f][1..] == [];
    }
    UnlinesConcat(PatchLines(WholeFiles(files[..k])), FileLines(f));
  }

  predicate NoDoubledPlus(lines: seq<string>) {
    forall k :: 0 <= k < |lines| ==> !StartsWith(lines[k], "++")
  }

  lemma {:induction false} AddsAreNumbered(lines: seq<string>, c: nat)
    ensures Clean(NewSide, Adds(lines)) <==> NoDoubledPlus(lines)
    ensures forall n: nat :: n in FirstParts(TrueNumbers(NewSide, Adds(lines), c)) <==> c <= n < c + |lines|
    decreases |lines|
  {
    hide StartsWith;
    if lines != [] {
      AddsAreNumbered(lines[1..], c + 1);
      assert Adds(lines)[1..] == Adds(lines[1..]);
      var t := TrueNumbers(NewSide, Adds(lines[1..]), c + 1);
      assert FirstParts(TrueNumbers(NewSide, Adds(lines), c)) == [c] + FirstParts(t);
      assert NoDoubledPlus(lines) <==> !StartsWith(lines[0], "++") && NoDoubledPlus(lines[1..]) by {
        assert forall k :: 0 <= k < |lines| - 1 ==> lines[1..][k] == lines[k + 1];
        assert forall k :: 1 <= k < |lines| ==> lines[k] == lines[1..][k - 1];
      }
    }
  }

  lemma LinesHoldNoBreak(content: string)
    ensures forall k :: 0 <= k < |SplitLines(content)| ==> '\n' !in SplitLines(content)[k]
  {
  }

  lemma WholeFileFits(path: string, content: string)
    requires path != "" && '\n' !in path && NoDoubledPlus(SplitLines(content))
    ensures FileFits(WholeFile(path, content))
  {
    var lines := SplitLines(content);
    LinesHoldNoBreak(content);
    hide SplitLines;
    AddsFit(lines);
    hide BodyFits;
    assert HunkFits(WholeFile(path, content).hunks[0]);
  }

  lemma AddsFit(lines: seq<string>)
    requires NoDoubledPlus(lines) && forall k :: 0 <= k < |lines| ==> '\n' !in lines[k]
    ensures forall k :: 0 <= k < |lines| ==> BodyFits(Add(lines[k]))
  {
    hide BodyFits, StartsWith;
    forall k | 0 <= k < |lines|
      ensures BodyFits(Add(lines[k]))
    {
      AddFits(lines[k]);
    }
  }

  lemma AddFits(line: string)
    requires !StartsWith(line, "++") && '\n' !in line
    ensures BodyFits(Add(line))
  {
    assert "++" <= "++ b/" && "++" <= "++ /dev/null";
    assert StartsWith(line, "++ b/") ==> StartsWith(line, "++");
  }

  /** The repository's printer adds every file in full: for each path the added lines are exactly 1 to n. */
  lemma WholeFilesAddAll(files: seq<(string, string)>)
    requires forall k :: 0 <= k < |files| ==>
      files[k].0 != "" && '\n' !in files[k].0 && NoDoubledPlus(SplitLines(files[k].1))
    requires forall a, b :: 0 <= a < b < |files| ==> files[a].0 != files[b].0
    ensures var added := AddedLines(Parse(UnifiedDiff.Text(WholeFiles(files))));
      |added| == |files| && forall k :: 0 <= k < |files| ==>
        added[k] == (files[k].0, OneTo(|SplitLines(files[k].1)|))
  {
    var patch := WholeFiles(files);
    forall k | 0 <= k < |patch|
      ensures FileFits(patch[k])
      ensures AddedOf(FileMeaning(patch[k]).hunks) == OneTo(|SplitLines(files[k].1)|)
    {
      WholeFileFits(files[k].0, files[k].1);
      WholeFileAdds(files[k].0, files[k].1);
    }
    FitsPrints(patch);
    ParsePrinted(patch);
    AddedLinesInOrder(Meanings(patch));
  }

  lemma WholeFileAdds(path: string, content: string)
    requires path != "" && '\n' !in path && NoDoubledPlus(SplitLines(content))
    ensures AddedOf(FileMeaning(WholeFile(path, content)).hunks) == OneTo(|SplitLines(content)|)
  {
    var f, lines := WholeFile(path, content), SplitLines(content);
    WholeFileFits(path, content);
    AddsAreNumbered(lines, 1);
    AddedOfClean(f.hunks);
    var t := TrueNumbers(NewSide, Adds(lines), 1);
    assert AllNumbers(NewSide, f.hunks) == t by {
      assert f.hunks[1..] == [];
      assert t + [] == t;
    }
    NumbersAreFirstParts(t);
  }
}
