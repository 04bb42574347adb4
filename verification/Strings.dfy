// Python strings as `string`, and the handful of string operations the repository relies on: `strip`, `startswith`,
// `endswith`, `split` and `join`, what counts as a space and what as a word character, and a substring at an offset.
// Splitting undoes joining whenever no line holds the separator.
module Strings {

  datatype Option<+T> = None | Some(value: T)

  datatype Result<+T, +E> = Ok(value: T) | Err(error: E)

  /** `str.isspace` on one character, which is also what `\s` matches in a str pattern. */
  predicate IsSpace(c: char) {
    var n := c as int;
    || 0x09 <= n <= 0x0d || 0x1c <= n <= 0x20 || n == 0x85 || n == 0xa0 || n == 0x1680
    || 0x2000 <= n <= 0x200a || n == 0x2028 || n == 0x2029 || n == 0x202f || n == 0x205f || n == 0x3000
  }

  /** The spaces by their code points. */
  lemma SpacesListed(c: char)
    ensures IsSpace(c) <==> c as int in {
      9, 10, 11, 12, 13, 28, 29, 30, 31, 32, 133, 160, 5760, 8192, 8193, 8194, 8195, 8196, 8197, 8198, 8199, 8200, 8201,
      8202, 8232, 8233, 8239, 8287, 12288 }
  {
  }

  /** `\w`, on the ASCII range. */
  predicate IsWord(c: char) {
    'a' <= c <= 'z' || 'A' <= c <= 'Z' || '0' <= c <= '9' || c == '_'
  }

  predicate AllSpace(s: string) {
    forall i :: 0 <= i < |s| ==> IsSpace(s[i])
  }

  /** Whether `word` stands at offset `i` of `s`. */
  predicate At(s: string, i: nat, word: string) {
    i + |word| <= |s| && s[i..i + |word|] == word
  }

  lemma AtConcat(s: string, i: nat, a: string, b: string)
    ensures At(s, i, a + b) <==> At(s, i, a) && At(s, i + |a|, b)
  {
    if At(s, i, a + b) {
      assert s[i..i + |a|] == (a + b)[..|a|];
      assert s[i + |a|..i + |a| + |b|] == (a + b)[|a|..];
    }
    if At(s, i, a) && At(s, i + |a|, b) {
      assert s[i..i + |a + b|] == s[i..i + |a|] + s[i + |a|..i + |a| + |b|];
    }
  }

  lemma AtOne(s: string, i: nat, c: char)
    requires At(s, i, [c])
    ensures i < |s| && s[i] == c
  {
    assert s[i] == s[i..i + 1][0];
  }

  lemma AtIndex(s: string, i: nat, word: string, k: nat)
    requires At(s, i, word) && k < |word|
    ensures i + k < |s| && s[i + k] == word[k]
  {
    assert s[i..i + |word|][k] == word[k];
  }

  predicate StartsWith(s: string, prefix: string) {
    prefix <= s
  }

  predicate EndsWith(s: string, suffix: string) {
    |suffix| <= |s| && s[|s| - |suffix|..] == suffix
  }

  /** The number of line breaks in `s`. */
  function Newlines(s: string): nat {
    if s == [] then 0 else (if s[0] == '\n' then 1 else 0) + Newlines(s[1..])
  }

  // --- strip ---

  function LStrip(s: string): (r: string)
  {
    if s != [] && IsSpace(s[0]) then LStrip(s[1..]) else s
  }

  function RStrip(s: string): (r: string)
  {
    if s != [] && IsSpace(s[|s| - 1]) then RStrip(s[..|s| - 1]) else s
  }

  function Strip(s: string): string {
    RStrip(LStrip(s))
  }

  lemma {:induction false} LStripCuts(s: string)
    ensures exists front: string :: s == front + LStrip(s) && AllSpace(front)
    ensures LStrip(s) != "" ==> !IsSpace(LStrip(s)[0])
  {
    if s != [] && IsSpace(s[0]) {
      LStripCuts(s[1..]);
      var front: string :| s[1..] == front + LStrip(s[1..]) && AllSpace(front);
      assert s == ([s[0]] + front) + LStrip(s);
    } else {
      assert s == "" + LStrip(s);
    }
  }

  lemma {:induction false} RStripCuts(s: string)
    ensures exists back: string :: s == RStrip(s) + back && AllSpace(back)
    ensures RStrip(s) != "" ==> !IsSpace(RStrip(s)[|RStrip(s)| - 1])
    decreases |s|
  {
    if s != [] && IsSpace(s[|s| - 1]) {
      var init := s[..|s| - 1];
      RStripCuts(init);
      var back: string :| init == RStrip(init) + back && AllSpace(back);
      assert s == RStrip(s) + (back + [s[|s| - 1]]);
    } else {
      assert s == RStrip(s) + "";
    }
  }

  /** `strip` takes white space off both ends, and all of it. */
  lemma StripCuts(s: string)
    ensures exists front: string, back: string :: s == front + Strip(s) + back && AllSpace(front) && AllSpace(back)
    ensures Stripped(Strip(s))
  {
    LStripCuts(s);
    RStripCuts(LStrip(s));
    var front: string :| s == front + LStrip(s) && AllSpace(front);
    var back: string :| LStrip(s) == Strip(s) + back && AllSpace(back);
    assert s == front + Strip(s) + back;
  }

  /** Nothing is left exactly of white space. */
  lemma StripsToNothing(s: string)
    ensures Strip(s) == "" <==> AllSpace(s)
  {
    StripCuts(s);
    var front: string, back: string :| s == front + Strip(s) + back && AllSpace(front) && AllSpace(back);
    if Strip(s) != "" {
      assert !IsSpace(Strip(s)[0]) && s[|front|] == Strip(s)[0];
    } else {
      assert s == front + back;
    }
  }

  /** Neither end is a space: what `strip` leaves alone. */
  predicate Stripped(s: string) {
    s != [] ==> !IsSpace(s[0]) && !IsSpace(s[|s| - 1])
  }

  lemma {:induction false} LStripPads(front: string, core: string)
    requires AllSpace(front) && (core != "" ==> !IsSpace(core[0]))
    ensures LStrip(front + core) == core
  {
    if front == "" {
      assert front + core == core;
    } else {
      assert (front + core)[1..] == front[1..] + core;
      LStripPads(front[1..], core);
    }
  }

  lemma {:induction false} RStripPads(core: string, back: string)
    requires AllSpace(back) && (core != "" ==> !IsSpace(core[|core| - 1]))
    ensures RStrip(core + back) == core
    decreases |back|
  {
    if back == "" {
      assert core + back == core;
    } else {
      var init := back[..|back| - 1];
      assert (core + back)[..|core + back| - 1] == core + init;
      RStripPads(core, init);
    }
  }

  lemma StripPads(front: string, core: string, back: string)
    requires AllSpace(front) && Stripped(core) && AllSpace(back)
    ensures Strip(front + core + back) == core
  {
    if core == "" {
      StripsToNothing(front + core + back);
    } else {
      assert front + core + back == front + (core + back);
      LStripPads(front, core + back);
      RStripPads(core, back);
    }
  }

  // --- lines, as `str.split("\n")` and `str.join` cut and glue them ---

  function Join(lines: seq<string>, glue: char): string {
    if lines == [] then []
    else if |lines| == 1 then lines[0]
    else lines[0] + [glue] + Join(lines[1..], glue)
  }

  function Split(s: string, cut: char): (r: seq<string>)
    ensures |r| >= 1
    ensures forall i :: 0 <= i < |r| ==> cut !in r[i]
    ensures Join(r, cut) == s
  {
    if s == [] then [[]]
    else
      var rest := Split(s[1..], cut);
      if s[0] == cut then
        assert Join([[]] + rest, cut) == s by {
          assert ([[]] + rest)[1..] == rest;
        }
        [[]] + rest
      else
        var r := [[s[0]] + rest[0]] + rest[1..];
        assert Join(r, cut) == s by {
          assert r[1..] == rest[1..];
          if |rest| > 1 {
            assert r[0] + [cut] + Join(rest[1..], cut) == [s[0]] + (rest[0] + [cut] + Join(rest[1..], cut));
          }
        }
        r
  }

  lemma {:induction false} SplitOfLine(line: string, cut: char)
    requires cut !in line
    ensures Split(line, cut) == [line]
  {
    if line != [] {
      SplitOfLine(line[1..], cut);
      assert [line[0]] + line[1..] == line;
    }
  }

  lemma {:induction false} SplitAtCut(line: string, rest: string, cut: char)
    requires cut !in line
    ensures Split(line + [cut] + rest, cut) == [line] + Split(rest, cut)
  {
    var s := line + [cut] + rest;
    if line == [] {
      assert s[1..] == rest;
    } else {
      assert s[1..] == line[1..] + [cut] + rest;
      SplitAtCut(line[1..], rest, cut);
      assert [line[0]] + line[1..] == line;
    }
  }

  /** Splitting undoes joining whenever no line holds the separator. */
  lemma {:induction false} SplitJoin(lines: seq<string>, cut: char)
    requires lines != []
    requires forall i :: 0 <= i < |lines| ==> cut !in lines[i]
    ensures Split(Join(lines, cut), cut) == lines
  {
    if |lines| == 1 {
      SplitOfLine(lines[0], cut);
    } else {
      SplitJoin(lines[1..], cut);
      SplitAtCut(lines[0], Join(lines[1..], cut), cut);
      assert [lines[0]] + lines[1..] == lines;
    }
  }
}
