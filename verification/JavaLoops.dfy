// Which lines of blanked Java source sit in the body of a loop: the scanner with its three stacks.
module JavaLoops {
  import opened Strings

  // --- the three keyword patterns, read at one offset ---

  /** The first offset from `i` on that holds no white space. */
  function SkipSpaces(code: string, i: nat): (j: nat)
    requires i <= |code|
    ensures i <= j <= |code| && forall k :: i <= k < j ==> IsSpace(code[k])
    ensures j < |code| ==> !IsSpace(code[j])
    decreases |code| - i
  {
    if i < |code| && IsSpace(code[i]) then SkipSpaces(code, i + 1) else i
  }

  /** No identifier, and no member access when `dots` count, runs into offset `i`. */
  predicate Boundary(code: string, i: nat, dots: bool) {
    i == 0 || i > |code| || !(IsWord(code[i - 1]) || code[i - 1] == '$' || (dots && code[i - 1] == '.'))
  }

  /** `word` at offset `i`, then white space, then `c`. */
  predicate WordThen(code: string, i: nat, word: string, c: char) {
    At(code, i, word) && var j := SkipSpaces(code, i + |word|); j < |code| && code[j] == c
  }

  predicate LoopHeadAt(code: string, i: nat) {
    Boundary(code, i, true) && (WordThen(code, i, "for", '(') || WordThen(code, i, "while", '('))
  }

  predicate DoBlockAt(code: string, i: nat) {
    Boundary(code, i, true) && WordThen(code, i, "do", '{')
  }

  predicate ForEachAt(code: string, i: nat) {
    Boundary(code, i, false) && WordThen(code, i, "forEach", '(')
  }

  /** `code.index(c, i)`, or the end of the text when there is none. */
  function IndexOf(code: string, c: char, i: nat): (j: nat)
    requires i <= |code|
    ensures i <= j <= |code| && forall k :: i <= k < j ==> code[k] != c
    ensures j < |code| ==> code[j] == c
    decreases |code| - i
  {
    if i == |code| || code[i] == c then i else IndexOf(code, c, i + 1)
  }

  /** The parenthesis a pattern at `i` ends on is the first one from `i` on. */
  lemma WordOpens(code: string, i: nat, word: string, c: char)
    requires WordThen(code, i, word, c) && c !in word && !IsSpace(c)
    ensures IndexOf(code, c, i) == SkipSpaces(code, i + |word|) < |code|
    ensures forall k :: i <= k < IndexOf(code, c, i) ==> code[k] in word || IsSpace(code[k])
  {
    var j := SkipSpaces(code, i + |word|);
    forall k | i <= k < j
      ensures code[k] in word || IsSpace(code[k])
    {
      if k < i + |word| {
        assert code[k] == code[i..i + |word|][k - i];
      }
    }
  }

  /** The `(` behind the keyword at `i`. */
  function Opening(code: string, i: nat): (j: nat)
    requires LoopHeadAt(code, i) || ForEachAt(code, i)
    ensures i < j < |code| && code[j] == '(' && j == IndexOf(code, '(', i)
    ensures forall k :: i <= k < j ==> code[k] != '(' && code[k] != ')'
  {
    OpensBehind(code, i);
    IndexOf(code, '(', i)
  }

  lemma OpensBehind(code: string, i: nat)
    requires LoopHeadAt(code, i) || ForEachAt(code, i)
    ensures i < IndexOf(code, '(', i) < |code|
    ensures forall k :: i <= k < IndexOf(code, '(', i) ==> code[k] != '(' && code[k] != ')'
  {
    var word := if WordThen(code, i, "for", '(') then "for" else if WordThen(code, i, "while", '(') then "while" else "forEach";
    assert WordThen(code, i, word, '(') && |word| >= 3 && '(' !in word && ')' !in word;
    hide WordThen, IndexOf;
    WordOpens(code, i, word, '(');
  }

  // --- parentheses ---

  /** Opening minus closing parentheses. */
  function Balance(s: string): int {
    if s == [] then 0
    else Balance(s[..|s| - 1]) + (if s[|s| - 1] == '(' then 1 else if s[|s| - 1] == ')' then -1 else 0)
  }

  lemma BalanceNext(code: string, i: nat, k: nat)
    requires i <= k < |code|
    ensures Balance(code[i..k + 1])
         == Balance(code[i..k]) + (if code[k] == '(' then 1 else if code[k] == ')' then -1 else 0)
  {
    assert code[i..k + 1][..k - i] == code[i..k];
  }

  /** Where `depth` open parentheses are all closed again, scanning from `i`. */
  function Close(code: string, i: nat, depth: int): (r: nat)
    requires i <= |code|
    ensures i <= r <= |code| && (r < |code| ==> code[r] == ')')
    decreases |code| - i
  {
    if i == |code| then i
    else if code[i] == '(' then Close(code, i + 1, depth + 1)
    else if code[i] == ')' then if depth == 1 then i else Close(code, i + 1, depth - 1)
    else Close(code, i + 1, depth)
  }

  method MatchingParen(code: string, opening: nat) returns (closing: nat)
    requires opening < |code| && code[opening] == '('
    ensures closing == Close(code, opening, 0)
    ensures opening < closing <= |code|
    ensures closing < |code| ==> code[closing] == ')' && Balance(code[opening..closing + 1]) == 0
    ensures forall k :: opening < k <= closing ==> Balance(code[opening..k]) > 0
  {
    var depth := 0;
    for index := opening to |code|
      invariant depth == Balance(code[opening..index])
      invariant index == opening ==> depth == 0
      invariant forall k :: opening < k <= index ==> Balance(code[opening..k]) > 0
      invariant Close(code, opening, 0) == Close(code, index, depth)
    {
      BalanceNext(code, opening, index);
      if code[index] == '(' {
        depth := depth + 1;
      } else if code[index] == ')' {
        depth := depth - 1;
        if depth == 0 {
          return index;
        }
      }
    }
    return |code|;
  }

  // --- the scanner ---

  datatype State = State(
    index: nat,
    line: nat,
    blocks: seq<bool>,     // one entry per open `{`: whether it is a loop body
    braceless: seq<nat>,   // brace depth of each open `for (...) oneStatement;`
    ends: seq<nat>,        // offset closing each open `forEach(...)` argument list
    depth: int,
    pending: bool,         // the next `{` opens a loop body
    parens: nat,           // open parentheses of the loop header being read
    inside: set<nat>)

  const Start := State(0, 1, [], [], [], 0, false, 0, {})

  function Last<T>(s: seq<T>): T
    requires s != []
  {
    s[|s| - 1]
  }

  function Init<T>(s: seq<T>): seq<T>
    requires s != []
  {
    s[..|s| - 1]
  }

  /** Leave every `forEach` argument list that ends here or earlier, as far as the top of the stack shows. */
  function PopEnds(st: State): (r: State)
    ensures r == st.(ends := r.ends, depth := r.depth) && r.ends <= st.ends
    ensures r.ends != [] ==> st.index < Last(r.ends)
    decreases |st.ends|
  {
    if st.ends != [] && st.index >= Last(st.ends)
    then PopEnds(st.(ends := Init(st.ends), depth := st.depth - 1))
    else st
  }

  /** One character inside `for (...)` or `while (...)`, where only the parentheses matter. */
  function HeaderStep(code: string, st: State): (r: State)
    requires st.index < |code| && st.parens > 0
    ensures r.index == st.index + 1
  {
    var c := code[st.index];
    var st' := st.(index := st.index + 1,
                   parens := if c == '(' then st.parens + 1 else if c == ')' then st.parens - 1 else st.parens);
    if c == ')' && st'.parens == 0 then
      var body := SkipSpaces(code, st'.index);
      if body < |code| && code[body] == '{' then st'.(pending := true)
      else st'.(braceless := st.braceless + [|st.blocks|], depth := st.depth + 1)
    else st'
  }

  function CodeStep(code: string, st: State): (r: State)
    requires st.index < |code|
    ensures st.index < r.index <= |code|
  {
    var c := code[st.index];
    var next := st.(index := st.index + 1);
    if c == '{' then
      next.(blocks := st.blocks + [st.pending], depth := st.depth + (if st.pending then 1 else 0), pending := false)
    else if c == '}' then
      if st.blocks == [] then next
      else next.(blocks := Init(st.blocks), depth := st.depth - (if Last(st.blocks) then 1 else 0))
    else if c == ';' && st.braceless != [] && Last(st.braceless) == |st.blocks| then
      next.(braceless := Init(st.braceless), depth := st.depth - 1)
    else if LoopHeadAt(code, st.index) then
      st.(parens := 1, index := Opening(code, st.index) + 1)
    else if DoBlockAt(code, st.index) then
      st.(pending := true, index := st.index + 2)
    else if ForEachAt(code, st.index) then
      var opening := Opening(code, st.index);
      st.(ends := st.ends + [Close(code, opening, 0)], depth := st.depth + 1, index := opening + 1)
    else next
  }

  /** One turn of the scanner's loop. */
  function Step(code: string, st: State): (r: State)
    requires st.index < |code|
    ensures st.index < r.index <= |code|
  {
    var st := PopEnds(st);
    var c := code[st.index];
    if c == '\n' then st.(line := st.line + 1, index := st.index + 1)
    else
      var st := if st.depth > 0 && !IsSpace(c) then st.(inside := st.inside + {st.line}) else st;
      if st.parens > 0 then HeaderStep(code, st) else CodeStep(code, st)
  }

  /** Run the scanner until it stands at `limit` or beyond. */
  function RunTo(code: string, st: State, limit: nat): State
    requires limit <= |code|
    decreases |code| - st.index
  {
    if st.index >= limit then st else RunTo(code, Step(code, st), limit)
  }

  // --- on any text at all: the depth counts what is open, and the range ends stay nested ---

  /** How many of the open braces are loop bodies. */
  function LoopBlocks(blocks: seq<bool>): nat {
    if blocks == [] then 0 else LoopBlocks(Init(blocks)) + (if Last(blocks) then 1 else 0)
  }

  /** `e` is where some number of parentheses open at `i` are closed. */
  ghost predicate ClosesFrom(code: string, i: nat, e: nat) {
    i <= |code| && exists d: int :: d >= 1 && Close(code, i, d) == e
  }

  predicate Nested(ends: seq<nat>) {
    forall a, b :: 0 <= a < b < |ends| ==> ends[b] <= ends[a]
  }

  predicate Counted(st: State) {
    st.depth == LoopBlocks(st.blocks) + |st.braceless| + |st.ends|
  }

  ghost predicate Ranges(code: string, i: nat, ends: seq<nat>) {
    Nested(ends) && forall k :: 0 <= k < |ends| ==> ClosesFrom(code, i, ends[k])
  }

  ghost predicate Inv(code: string, st: State) {
    st.index <= |code| && Counted(st) && Ranges(code, st.index, st.ends)
  }

  /** The ranges of `ends` that still hold offset `i`. */
  function Live(ends: seq<nat>, i: nat): seq<nat> {
    if ends == [] then []
    else Live(Init(ends), i) + (if i < Last(ends) then [Last(ends)] else [])
  }

  lemma {:induction false} LiveAll(ends: seq<nat>, i: nat)
    requires forall k :: 0 <= k < |ends| ==> i < ends[k]
    ensures Live(ends, i) == ends
  {
    if ends != [] {
      LiveAll(Init(ends), i);
      assert ends == Init(ends) + [Last(ends)];
    }
  }

  /** Because the ends are nested, popping only the top leaves exactly the ranges still holding the index. */
  lemma {:induction false} PopLeavesLive(st: State)
    requires Nested(st.ends)
    ensures PopEnds(st).ends == Live(st.ends, st.index)
    ensures forall k :: 0 <= k < |PopEnds(st).ends| ==> st.index < PopEnds(st).ends[k]
    decreases |st.ends|
  {
    if st.ends != [] && st.index >= Last(st.ends) {
      PopLeavesLive(st.(ends := Init(st.ends), depth := st.depth - 1));
    } else if st.ends != [] {
      LiveAll(st.ends, st.index);
    }
  }

  lemma {:induction false} PopCounts(st: State)
    requires Counted(st)
    ensures Counted(PopEnds(st))
    decreases |st.ends|
  {
    if st.ends != [] && st.index >= Last(st.ends) {
      PopCounts(st.(ends := Init(st.ends), depth := st.depth - 1));
    }
  }

  lemma {:induction false} CloseGrows(code: string, i: nat, d: int, d': int)
    requires i <= |code| && 1 <= d <= d'
    ensures Close(code, i, d) <= Close(code, i, d')
    decreases |code| - i
  {
    if i < |code| {
      var delta := if code[i] == '(' then 1 else if code[i] == ')' then -1 else 0;
      if d + delta >= 1 {
        CloseGrows(code, i + 1, d + delta, d' + delta);
      }
    }
  }

  lemma ClosesNext(code: string, i: nat, e: nat)
    requires ClosesFrom(code, i, e) && i < e
    ensures ClosesFrom(code, i + 1, e)
  {
    var d: int :| d >= 1 && Close(code, i, d) == e;
    assert i < |code|;
    var d' := d + (if code[i] == '(' then 1 else if code[i] == ')' then -1 else 0);
    assert Close(code, i + 1, d') == e;
  }

  lemma {:induction false} ClosesFar(code: string, i: nat, j: nat, d: int)
    requires i <= j <= |code| && forall k :: i <= k < j ==> code[k] != '(' && code[k] != ')'
    ensures Close(code, i, d) == Close(code, j, d)
    decreases j - i
  {
    if i < j {
      ClosesFar(code, i + 1, j, d);
    }
  }

  /** A range recognised inside another one ends no later. */
  lemma ClosesPast(code: string, i: nat, opening: nat, e: nat)
    requires ClosesFrom(code, i, e) && i <= opening < |code| && code[opening] == '('
    requires forall k :: i <= k < opening ==> code[k] != '(' && code[k] != ')'
    ensures ClosesFrom(code, opening + 1, e)
    ensures Close(code, opening, 0) <= e
  {
    var d: int :| d >= 1 && Close(code, i, d) == e;
    ClosesFar(code, i, opening, d);
    assert Close(code, opening + 1, d + 1) == e;
    CloseGrows(code, opening + 1, 1, d + 1);
  }

  lemma PoppedHolds(code: string, st: State)
    requires Inv(code, st)
    ensures Inv(code, PopEnds(st)) && forall k :: 0 <= k < |PopEnds(st).ends| ==> st.index < PopEnds(st).ends[k]
  {
    hide PopEnds, ClosesFrom;
    PopLeavesLive(st);
    PopCounts(st);
  }

  /** Every turn of the loop, on any text, keeps the depth equal to the loop braces, braceless bodies and
      `forEach` ranges that are open, and keeps the range ends nested. */
  lemma InvStep(code: string, st: State)
    requires Inv(code, st) && st.index < |code|
    ensures Inv(code, Step(code, st))
  {
    hide PopEnds, CodeStep, HeaderStep, Ranges, IsSpace;
    PoppedHolds(code, st);
    var p := PopEnds(st);
    var marked := if p.depth > 0 && !IsSpace(code[p.index]) then p.(inside := p.inside + {p.line}) else p;
    RangesNext(code, p);
    HeaderCounts(code, marked);
    CodeCounts(code, marked);
    CodeRanges(code, marked);
  }

  lemma RangesNext(code: string, p: State)
    requires Ranges(code, p.index, p.ends) && p.index < |code|
    requires forall k :: 0 <= k < |p.ends| ==> p.index < p.ends[k]
    ensures Ranges(code, p.index + 1, p.ends)
  {
    forall k | 0 <= k < |p.ends|
      ensures ClosesFrom(code, p.index + 1, p.ends[k])
    {
      ClosesNext(code, p.index, p.ends[k]);
    }
  }

  lemma HeaderCounts(code: string, p: State)
    requires Counted(p) && p.index < |code|
    ensures p.parens > 0 ==> Counted(HeaderStep(code, p)) && HeaderStep(code, p).ends == p.ends
  {
  }

  lemma CodeCounts(code: string, p: State)
    requires Counted(p) && p.index < |code|
    ensures Counted(CodeStep(code, p))
  {
  }

  lemma CodeRanges(code: string, p: State)
    requires Ranges(code, p.index, p.ends) && p.index < |code|
    requires forall k :: 0 <= k < |p.ends| ==> p.index < p.ends[k]
    ensures Ranges(code, CodeStep(code, p).index, CodeStep(code, p).ends)
  {
    hide LoopHeadAt, DoBlockAt, ForEachAt;
    var st' := CodeStep(code, p);
    forall k | 0 <= k < |p.ends|
      ensures ClosesFrom(code, st'.index, p.ends[k])
    {
      JumpKeepsClose(code, p, p.ends[k]);
    }
    if st'.ends != p.ends {
      var opening := Opening(code, p.index);
      var e := Close(code, opening, 0);
      assert Close(code, opening + 1, 1) == e;
      forall k | 0 <= k < |p.ends|
        ensures e <= p.ends[k]
      {
        ClosesPast(code, p.index, opening, p.ends[k]);
      }
    }
  }

  lemma ClosesPastDo(code: string, i: nat, e: nat)
    requires DoBlockAt(code, i) && ClosesFrom(code, i, e)
    ensures ClosesFrom(code, i + 2, e)
  {
    assert code[i..i + 2] == "do" && code[i] == "do"[0] && code[i + 1] == "do"[1];
    var d: int :| d >= 1 && Close(code, i, d) == e;
    ClosesFar(code, i, i + 2, d);
  }

  lemma JumpKeepsClose(code: string, p: State, e: nat)
    requires p.index < |code| && ClosesFrom(code, p.index, e) && p.index < e
    ensures ClosesFrom(code, CodeStep(code, p).index, e)
  {
    hide Close, ClosesFrom, LoopHeadAt, ForEachAt, DoBlockAt, IsSpace;
    var i := p.index;
    ClosesNext(code, i, e);
    if CodeStep(code, p).index > i + 1 {
      if LoopHeadAt(code, i) || ForEachAt(code, i) {
        ClosesPast(code, i, Opening(code, i), e);
      }
      if DoBlockAt(code, i) {
        ClosesPastDo(code, i, e);
      }
    }
  }

  /** So the depth is never negative, however broken the text. */
  lemma {:induction false} InvRun(code: string, st: State, limit: nat)
    requires Inv(code, st) && limit <= |code|
    ensures Inv(code, RunTo(code, st, limit)) && RunTo(code, st, limit).depth >= 0
    decreases |code| - st.index
  {
    if st.index < limit {
      InvStep(code, st);
      InvRun(code, Step(code, st), limit);
    }
  }

  lemma InvAlways(code: string, limit: nat)
    requires limit <= |code|
    ensures Inv(code, RunTo(code, Start, limit)) && RunTo(code, Start, limit).depth >= 0
  {
    InvRun(code, Start, limit);
  }
}
