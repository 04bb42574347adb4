// Patches that add whole files, printed by the repository and read back: which lines are counted.
module WholeFilePatches {
  // The printer escapes nothing, so a line of content that begins with two plus signs is printed as one that begins with
  // three. The reader takes some of those for file header lines, and the walker passes over all of them.

  import opened Strings
  import opened UnifiedDiff
  import opened DiffLines
  import opened PatchApply

  /** The lines the reader leaves in the hunk: printed behind a `+`, the others read as file header lines. */
  function Left(lines: seq<string>): seq<string> {
    if lines == [] then [] else (if ReadsAsHeader(Add(lines[0])) then [] else [lines[0]]) + Left(lines[1..])
  }

  /** The path of the file once its content is read: the last header line among it renames the file. */
  function PathBehind(path: string, lines: seq<string>): string
    decreases |lines|
  {
    if lines == [] then path
    else PathBehind(if StartsWith(lines[0], "++ b/") then lines[0][5..] else path, lines[1..])
  }

  /** How many lines do not begin with two plus signs. */
  function Singles(lines: seq<string>): nat {
    if lines == [] then 0 else (if StartsWith(lines[0], "++") then 0 else 1) + Singles(lines[1..])
  }

  lemma {:induction false} SinglesAre(lines: seq<string>)
    ensures Singles(lines) <= |lines| && (Singles(lines) == |lines| <==> NoDoubledPlus(lines))
  {
    hide StartsWith;
    if lines != [] {
      SinglesAre(lines[1..]);
      assert NoDoubledPlus(lines) <==> !StartsWith(lines[0], "++") && NoDoubledPlus(lines[1..]) by {
        assert forall k :: 0 <= k < |lines| - 1 ==> lines[1..][k] == lines[k + 1];
        assert forall k :: 1 <= k < |lines| ==> lines[k] == lines[1..][k - 1];
      }
    }
  }

  lemma HeadersAreDoubled(line: string)
    requires ReadsAsHeader(Add(line))
    ensures StartsWith(line, "++")
  {
    assert "++" <= "++ b/" && "++" <= "++ /dev/null";
  }

  lemma {:induction false} LeftAre(lines: seq<string>)
    requires forall k :: 0 <= k < |lines| ==> '\n' !in lines[k]
    ensures forall k :: 0 <= k < |Left(lines)| ==> BodyFits(Add(Left(lines)[k]))
    ensures Singles(Left(lines)) == Singles(lines)
  {
    hide StartsWith;
    if lines != [] {
      LeftAre(lines[1..]);
      if ReadsAsHeader(Add(lines[0])) {
        HeadersAreDoubled(lines[0]);
        assert [] + Left(lines[1..]) == Left(lines[1..]);
      } else {
        assert ([lines[0]] + Left(lines[1..]))[1..] == Left(lines[1..]);
      }
    }
  }

  /** What the reader keeps of the hunk, and where it takes the file to be. */
  lemma {:induction false} RemainingAdds(lines: seq<string>, file: FileDiff)
    ensures Remaining(Adds(lines)) == Adds(Left(lines))
    ensures Turned(file, Adds(lines)).path == PathBehind(file.path, lines)
    decreases |lines|
  {
    hide StartsWith;
    if lines == [] {
      assert Adds([]) == [];
    } else {
      assert Adds(lines)[0] == Add(lines[0]) && Adds(lines)[1..] == Adds(lines[1..]);
      RemainingAdds(lines[1..], TurnedBy(file, Add(lines[0])));
      LeftNext(lines);
    }
  }

  lemma LeftNext(lines: seq<string>)
    requires lines != []
    ensures Adds(Left(lines)) == (if ReadsAsHeader(Add(lines[0])) then [] else [Add(lines[0])]) + Adds(Left(lines[1..]))
  {
    hide ReadsAsHeader;
  }

  /** The hunk left of a file printed whole. */
  function LeftHunk(content: string): PatchHunk {
    PatchHunk(0, Some(0), 1, Some(|SplitLines(content)|), "", Adds(Left(SplitLines(content))))
  }

  /** A whole file, read: its path is the last one among the header lines, its hunk holds the other lines. */
  lemma ReadWhole(path: string, content: string)
    ensures var file := FileAsRead(WholeFile(path, content));
      file.path == PathBehind(path, SplitLines(content)) && file.hunks == [HunkMeaning(LeftHunk(content))]
  {
    hide SplitLines, Adds, PathBehind, Turned, Remaining, Left, HunkMeaning;
    var file := FileDiff(path, Status.Added, []);
    var h := WholeFile(path, content).hunks[0];
    RemainingAdds(SplitLines(content), file);
    var read := Turned(file, h.body).(hunks := [] + [HunkAsRead(h)]);
    assert FileWith(file, [h]) == FileWith(read, [h][1..]) && [h][1..] == [];
  }

  /** Only the lines that do not begin with two plus signs are counted, and they are counted in order. */
  lemma {:induction false} WalkedAdds(lines: seq<string>, c: nat)
    ensures forall n: nat :: n in Numbers(Walked(NewSide, Adds(lines), c)) <==> c <= n < c + Singles(lines)
    decreases |lines|
  {
    hide StartsWith;
    if lines != [] {
      assert Adds(lines)[1..] == Adds(lines[1..]) && Adds(lines)[0] == Add(lines[0]);
      if StartsWith(lines[0], "++") {
        WalkedAdds(lines[1..], c);
      } else {
        WalkedAdds(lines[1..], c + 1);
        var rest := Walked(NewSide, Adds(lines[1..]), c + 1);
        assert Walked(NewSide, Adds(lines), c) == [(c, lines[0])] + rest;
        NumbersConcat([(c, lines[0])], rest);
        assert Numbers([(c, lines[0])]) == {c};
      }
    }
  }

  lemma LeftCounts(content: string)
    ensures AddedOf([HunkMeaning(LeftHunk(content))]) == OneTo(Singles(SplitLines(content)))
  {
    hide SplitLines, Left, Walked, HunkMeaning, Adds;
    var lines, left := SplitLines(content), LeftHunk(content);
    LinesHoldNoBreak(content);
    LeftAre(lines);
    WalkOfPrinted(left, NewSide);
    WalkedAdds(Left(lines), 1);
    OneHunk(left);
    var found := Numbers(Walked(NewSide, Adds(Left(lines)), 1));
    assert forall n: nat :: n in found <==> n in OneTo(Singles(lines));
    assert found == OneTo(Singles(lines));
  }

  lemma OneHunk(h: PatchHunk)
    ensures AddedOf([HunkMeaning(h)]) == Numbers(HunkWalk(HunkMeaning(h), NewSide))
    ensures FirstNumber(HunkMeaning(h), NewSide) == h.newStart
  {
    assert [HunkMeaning(h)][1..] == [];
    assert AddedOf([]) == {};
  }

  /** What reading the printed files gives, whatever they hold. */
  ghost predicate ReadAs(diffs: seq<FileDiff>, files: seq<(string, string)>) {
    && |diffs| == |files|
    && forall k :: 0 <= k < |files| ==>
         && diffs[k].path == PathBehind(files[k].0, SplitLines(files[k].1))
         && AddedOf(diffs[k].hunks) == OneTo(Singles(SplitLines(files[k].1)))
  }

  lemma WholeFilePrints(path: string, content: string)
    requires path != "" && '\n' !in path
    ensures FilePrints(WholeFile(path, content))
  {
    LinesHoldNoBreak(content);
    hide SplitLines;
  }

  /** Whatever the files hold, each is read as one file: under the last path among its header lines, with as many lines
      added as do not begin with two plus signs, numbered from 1. */
  lemma WholeFilesRead(files: seq<(string, string)>)
    requires forall k :: 0 <= k < |files| ==> files[k].0 != "" && '\n' !in files[k].0
    ensures ReadAs(Parse(UnifiedDiff.Text(WholeFiles(files))), files)
  {
    hide WholeFile, FilePrints, FileAsRead, Parse, UnifiedDiff.Text, AddedOf, SplitLines, Singles, PathBehind, LeftHunk;
    var patch := WholeFiles(files);
    forall k | 0 <= k < |files|
      ensures FilePrints(patch[k])
      ensures FileAsRead(patch[k]).path == PathBehind(files[k].0, SplitLines(files[k].1))
      ensures AddedOf(FileAsRead(patch[k]).hunks) == OneTo(Singles(SplitLines(files[k].1)))
    {
      WholeFilePrints(files[k].0, files[k].1);
      ReadWhole(files[k].0, files[k].1);
      LeftCounts(files[k].1);
    }
    PrintedReads(patch);
  }

  lemma {:induction false} PutGrows<T>(d: Dict<T>, key: string, value: T)
    ensures |d| <= |Put(d, key, value)| <= |d| + 1
    ensures |Put(d, key, value)| == |d| + 1 ==> Put(d, key, value) == d + [(key, value)]
  {
    if d != [] && d[0].0 != key {
      PutGrows(d[1..], key, value);
    }
  }

  /** A dictionary with as many entries as there were files has them in order. */
  lemma {:induction false} FullDict(diffs: seq<FileDiff>)
    ensures |AddedLines(diffs)| <= |diffs|
    ensures |AddedLines(diffs)| == |diffs|
      ==> forall k :: 0 <= k < |diffs| ==> AddedLines(diffs)[k] == (diffs[k].path, AddedOf(diffs[k].hunks))
    decreases |diffs|
  {
    hide AddedOf;
    if diffs != [] {
      var front, last := diffs[..|diffs| - 1], diffs[|diffs| - 1];
      FullDict(front);
      PutGrows(AddedLines(front), last.path, AddedOf(last.hunks));
    }
  }

  lemma OneToDiffers(m: nat, n: nat)
    requires OneTo(m) == OneTo(n)
    ensures m == n
  {
    assert m in OneTo(m) || m == 0;
    assert n in OneTo(n) || n == 0;
  }

  /** The lines counted, for each path, are exactly the lines 1 to n of the file. */
  ghost predicate AllCounted(files: seq<(string, string)>, added: Dict<set<nat>>) {
    |added| == |files| && forall k :: 0 <= k < |files| ==> added[k] == (files[k].0, OneTo(|SplitLines(files[k].1)|))
  }

  /** The printer adds every file in full, as the reader counts, if and only if no line of any file begins with two plus
      signs. */
  lemma WholeFilesAddAllIff(files: seq<(string, string)>)
    requires forall k :: 0 <= k < |files| ==> files[k].0 != "" && '\n' !in files[k].0
    requires forall a, b :: 0 <= a < b < |files| ==> files[a].0 != files[b].0
    ensures AllCounted(files, AddedLines(Parse(UnifiedDiff.Text(WholeFiles(files)))))
        <==> forall k :: 0 <= k < |files| ==> NoDoubledPlus(SplitLines(files[k].1))
  {
    hide Parse, WholeFiles, SplitLines, AddedOf, Singles, PathBehind, OneTo, NoDoubledPlus, AddedLines, UnifiedDiff.Text;
    var diffs := Parse(UnifiedDiff.Text(WholeFiles(files)));
    if forall k :: 0 <= k < |files| ==> NoDoubledPlus(SplitLines(files[k].1)) {
      WholeFilesAddAll(files);
    }
    if AllCounted(files, AddedLines(diffs)) {
      WholeFilesRead(files);
      FullDict(diffs);
      forall k | 0 <= k < |files|
        ensures NoDoubledPlus(SplitLines(files[k].1))
      {
        var lines := SplitLines(files[k].1);
        assert AddedLines(diffs)[k] == (files[k].0, OneTo(|lines|));
        OneToDiffers(Singles(lines), |lines|);
        SinglesAre(lines);
      }
    }
  }
}
