// Comment and literal contents of Java source, replaced by spaces.
module JavaBlanking {
  // `Blank` is the hand-written lexer; tokens (sections 3.7 and 3.10.5 of the Java Language Specification,
  // text blocks aside) are what it is judged against. Every text is the print of some well-formed token list
  // (`Lex`), so the agreement proved in `BlankAgreesWithTokens` leaves no text out.


  datatype Mode = Code | InLine | InBlock | InLiteral(quote: char)

  /** The two characters `s` starts with. */
  predicate Pair(s: string, a: char, b: char) {
    |s| >= 2 && s[0] == a && s[1] == b
  }

  predicate IsQuote(c: char) {
    c == '"' || c == '\''
  }

  /** What a hidden character leaves behind: line breaks survive. */
  function Hide(c: char): char {
    if c == '\n' then c else ' '
  }

  function HideAll(s: string): (r: string)
    ensures |r| == |s|
    ensures forall i :: 0 <= i < |s| ==> r[i] == Hide(s[i])
  {
    seq(|s|, i requires 0 <= i < |s| => Hide(s[i]))
  }

  /** One move of the lexer: what replaces the character or pair it consumes, and the mode it leaves in. */
  function Move(m: Mode, s: string): (r: (string, Mode))
    requires s != []
    ensures 1 <= |r.0| <= 2 && |r.0| <= |s|
  {
    match m
    case Code =>
      if Pair(s, '/', '/') then ("  ", InLine)
      else if Pair(s, '/', '*') then ("  ", InBlock)
      else ([s[0]], if IsQuote(s[0]) then InLiteral(s[0]) else Code)
    case InLine =>
      ([Hide(s[0])], if s[0] == '\n' then Code else InLine)
    case InBlock =>
      if Pair(s, '*', '/') then ("  ", Code) else ([Hide(s[0])], InBlock)
    case InLiteral(q) =>
      if s[0] == '\\' then (if |s| == 1 then " " else [' ', Hide(s[1])], m)
      else if s[0] == q || s[0] == '\n' then ([s[0]], Code)
      else (" ", m)
  }

  /** The text that remains of `s` when the lexer meets it in mode `m`. */
  function Blank(m: Mode, s: string): (r: string)
    ensures |r| == |s|
    decreases |s|
  {
    if s == [] then []
    else
      var (kept, m') := Move(m, s);
      kept + Blank(m', s[|kept|..])
  }

  /** The lexer as written: one pass that overwrites a copy of the source. */
  method BlankJavaNoise(source: string) returns (blanked: string)
    ensures blanked == Blank(Code, source)
    ensures forall toks :: WellFormed(toks) && Print(toks) == source ==> blanked == Mask(toks)
    ensures SameShape(source, blanked)
  {
    hide Blank;
    var length := |source|;
    var out := source;
    var index := 0;
    var state := Code;
    while index < length
      invariant 0 <= index <= length + 1
      invariant |out| == length
      invariant index <= length ==> Progress(source, out, index, state)
      invariant index > length ==> Blank(Code, source) == out
    {
      var character := source[index];
      ghost var before, start, mode := out, index, state;
      ghost var (kept, next) := Move(state, source[index..]);
      if state == Code {
        if index + 1 < length && source[index] == '/' && source[index + 1] == '/' {
          state, out := InLine, out[index := ' '][index + 1 := ' '];
          index := index + 2;
        } else if index + 1 < length && source[index] == '/' && source[index + 1] == '*' {
          state, out := InBlock, out[index := ' '][index + 1 := ' '];
          index := index + 2;
        } else {
          if IsQuote(character) {
            state := InLiteral(character);
          }
          index := index + 1;
        }
      } else if state == InLine {
        if character == '\n' {
          state := Code;
        } else {
          out := out[index := ' '];
        }
        index := index + 1;
      } else if state == InBlock {
        if index + 1 < length && source[index] == '*' && source[index + 1] == '/' {
          out := out[index := ' '][index + 1 := ' '];
          state := Code;
          index := index + 2;
        } else {
          if character != '\n' {
            out := out[index := ' '];
          }
          index := index + 1;
        }
      } else if character == '\\' {
        out := out[index := ' '];
        if index + 1 < length && source[index + 1] != '\n' {
          out := out[index + 1 := ' '];
        }
        index := index + 2;
      } else if character == state.quote {
        state := Code;
        index := index + 1;
      } else if character == '\n' {
        state := Code;
        index := index + 1;
      } else {
        out := out[index := ' '];
        index := index + 1;
      }
      assert state == next && index - start == if index <= length then |kept| else 2;
      ProgressMoves(source, before, out, start, mode);
    }
    blanked := out;
    assert index <= length ==> out[..length] == out && source[length..] == [];
    BlankIsTheMask(source);
  }

  lemma BlankIsTheMask(source: string)
    ensures forall toks :: WellFormed(toks) && Print(toks) == source ==> Blank(Code, source) == Mask(toks)
    ensures SameShape(source, Blank(Code, source))
  {
    BlankKeepsShape(Code, source);
    forall toks | WellFormed(toks) && Print(toks) == source
      ensures Blank(Code, source) == Mask(toks)
    {
      BlankAgreesWithTokens(toks);
    }
  }

  /** `out` is blanked up to `index` and untouched from there on. */
  ghost predicate Progress(source: string, out: string, index: nat, state: Mode) {
    && index <= |source| == |out|
    && out[index..] == source[index..]
    && Blank(Code, source) == out[..index] + Blank(state, source[index..])
  }

  ghost predicate Overwrites(before: string, out: string, index: nat, kept: string) {
    && |out| == |before|
    && index + |kept| <= |out|
    && (forall k :: 0 <= k < |kept| ==> out[index + k] == kept[k])
    && (forall k :: 0 <= k < index || index + |kept| <= k < |out| ==> out[k] == before[k])
  }

  /** Writing one move's output over the text keeps the progress made. */
  lemma ProgressMoves(source: string, before: string, out: string, index: nat, m: Mode)
    requires Progress(source, before, index, m) && index < |source|
    requires Overwrites(before, out, index, Move(m, source[index..]).0)
    ensures var (kept, m') := Move(m, source[index..]);
      Progress(source, out, index + |kept|, m')
  {
    var (kept, m') := Move(m, source[index..]);
    var next := index + |kept|;
    assert out[next..] == before[index..][|kept|..] == source[next..];
    assert out[..next] == before[..index] + kept;
    BlankAfterMove(source, before[..index], kept, index, m, m');
  }

  lemma BlankAfterMove(source: string, done: string, kept: string, index: nat, m: Mode, m': Mode)
    requires index < |source| && Move(m, source[index..]) == (kept, m')
    requires Blank(Code, source) == done + Blank(m, source[index..])
    ensures Blank(Code, source) == done + kept + Blank(m', source[index + |kept|..])
  {
    Moves(m, source[index..], kept, m', source[index + |kept|..]);
    Regroup(done, kept, Blank(m', source[index + |kept|..]));
  }

  // --- the shape of the text survives ---

  /** Same length, line breaks where they were, and every other character either kept or a space. */
  predicate SameShape(s: string, r: string) {
    && |r| == |s|
    && (forall i :: 0 <= i < |s| ==> (r[i] == '\n' <==> s[i] == '\n'))
    && (forall i :: 0 <= i < |s| ==> r[i] == s[i] || r[i] == ' ')
  }

  lemma ShapeConcat(a: string, b: string, x: string, y: string)
    requires SameShape(a, x) && SameShape(b, y)
    ensures SameShape(a + b, x + y)
  {
  }

  lemma {:induction false} BlankKeepsShape(m: Mode, s: string)
    ensures SameShape(s, Blank(m, s))
    decreases |s|
  {
    if s != [] {
      var (kept, m') := Move(m, s);
      var n := |kept|;
      assert SameShape(s[..n], kept);
      BlankKeepsShape(m', s[n..]);
      ShapeConcat(s[..n], s[n..], kept, Blank(m', s[n..]));
      assert s[..n] + s[n..] == s;
    }
  }

  // --- tokens ---

  /** How a literal stops: at its quote, at a line break or the end of the text, or on a last lone backslash. */
  datatype Ending = Closed | Cut | Dangling

  datatype Token =
    | Char(c: char)
    | LineComment(body: string)
    | BlockComment(body: string, closed: bool)
    | Literal(quote: char, body: string, ending: Ending)

  function Closing(q: char, ending: Ending): string {
    match ending case Closed => [q] case Cut => [] case Dangling => "\\"
  }

  function Text(t: Token): (r: string)
    ensures r != []
  {
    match t
    case Char(c) => [c]
    case LineComment(body) => "//" + body
    case BlockComment(body, closed) => "/*" + body + (if closed then "*/" else "")
    case Literal(q, body, ending) =>
      [q] + body + Closing(q, ending)
  }

  /** What must be left of a token: all of a code character, nothing of a comment, the quotes of a literal. */
  function Masked(t: Token): (r: string)
    ensures |r| == |Text(t)|
  {
    match t
    case Char(c) => [c]
    case LineComment(body) => "  " + HideAll(body)
    case BlockComment(body, closed) => "  " + HideAll(body) + (if closed then "  " else "")
    case Literal(q, body, ending) =>
      [q] + HideAll(body) + (if ending.Dangling? then " " else Closing(q, ending))
  }

  function Print(toks: seq<Token>): string {
    if toks == [] then [] else Text(toks[0]) + Print(toks[1..])
  }

  function Mask(toks: seq<Token>): string {
    if toks == [] then [] else Masked(toks[0]) + Mask(toks[1..])
  }

  /** A block comment body does not close the comment. */
  predicate NoClose(body: string) {
    forall i :: 0 <= i < |body| - 1 ==> !(body[i] == '*' && body[i + 1] == '/')
  }

  /** A literal body is made of escape pairs and of characters that end nothing. */
  predicate LiteralBody(q: char, body: string)
    decreases |body|
  {
    if body == [] then true
    else if body[0] == '\\' then |body| >= 2 && LiteralBody(q, body[2..])
    else body[0] != q && body[0] != '\n' && LiteralBody(q, body[1..])
  }

  predicate AtLineEnd(rest: seq<Token>) {
    rest == [] || rest[0] == Char('\n')
  }

  /** Whether `t` can stand before `rest` without the two running together. */
  predicate Fits(t: Token, rest: seq<Token>) {
    match t
    case Char(c) => !IsQuote(c) && (c == '/' && Print(rest) != [] ==> Print(rest)[0] != '/' && Print(rest)[0] != '*')
    case LineComment(body) => '\n' !in body && AtLineEnd(rest)
    case BlockComment(body, closed) => NoClose(body) && (closed || rest == [])
    case Literal(q, body, ending) =>
      && IsQuote(q) && LiteralBody(q, body)
      && (ending.Cut? ==> AtLineEnd(rest)) && (ending.Dangling? ==> rest == [])
  }

  predicate WellFormed(toks: seq<Token>) {
    toks == [] || (Fits(toks[0], toks[1..]) && WellFormed(toks[1..]))
  }

  /** One move, read as an equation on `Blank`. */
  lemma Moves(m: Mode, s: string, kept: string, m': Mode, rest: string)
    requires s != [] && Move(m, s) == (kept, m') && s[|kept|..] == rest
    ensures Blank(m, s) == kept + Blank(m', rest)
  {
  }

  /** A move followed by what is already known of the rest. */
  lemma MovesThen(m: Mode, s: string, kept: string, m': Mode, rest: string, more: string, last: string)
    requires s != [] && Move(m, s) == (kept, m') && s[|kept|..] == rest
    requires Blank(m', rest) == more + last
    ensures Blank(m, s) == kept + more + last
  {
    Regroup(kept, more, last);
  }

  lemma Regroup(a: string, b: string, c: string)
    ensures a + (b + c) == a + b + c
  {
  }

  lemma HideAllSplits(s: string, n: nat)
    requires n <= |s|
    ensures HideAll(s) == HideAll(s[..n]) + HideAll(s[n..])
  {
  }

  lemma {:induction false} BlankLineBody(body: string, tail: string)
    requires '\n' !in body
    ensures Blank(InLine, body + tail) == HideAll(body) + Blank(InLine, tail)
  {
    if body == [] {
      assert body + tail == tail;
    } else {
      BlankLineBody(body[1..], tail);
      HideAllSplits(body, 1);
      assert HideAll(body[..1]) == [Hide(body[0])];
      MovesThen(InLine, body + tail, HideAll(body[..1]), InLine, body[1..] + tail,
                HideAll(body[1..]), Blank(InLine, tail));
    }
  }

  lemma {:induction false} BlankBlockBody(body: string, tail: string)
    requires NoClose(body)
    requires tail == [] || Pair(tail, '*', '/')
    ensures Blank(InBlock, body + tail) == HideAll(body) + Blank(InBlock, tail)
  {
    if body == [] {
      assert body + tail == tail;
    } else {
      BlankBlockBody(body[1..], tail);
      HideAllSplits(body, 1);
      assert HideAll(body[..1]) == [Hide(body[0])];
      MovesThen(InBlock, body + tail, HideAll(body[..1]), InBlock, body[1..] + tail,
                HideAll(body[1..]), Blank(InBlock, tail));
    }
  }

  lemma LiteralMove(q: char, body: string, tail: string, n: nat)
    requires LiteralBody(q, body) && body != [] && n == if body[0] == '\\' then 2 else 1
    ensures n <= |body| && LiteralBody(q, body[n..])
    ensures Move(InLiteral(q), body + tail) == (HideAll(body[..n]), InLiteral(q))
    ensures (body + tail)[n..] == body[n..] + tail
  {
    assert HideAll(body[..n]) == if n == 2 then [' ', Hide(body[1])] else " ";
  }

  lemma {:induction false} BlankLiteralBody(q: char, body: string, tail: string)
    requires LiteralBody(q, body)
    ensures Blank(InLiteral(q), body + tail) == HideAll(body) + Blank(InLiteral(q), tail)
    decreases |body|
  {
    if body == [] {
      assert body + tail == tail;
    } else {
      var n := if body[0] == '\\' then 2 else 1;
      LiteralMove(q, body, tail, n);
      BlankLiteralBody(q, body[n..], tail);
      HideAllSplits(body, n);
      MovesThen(InLiteral(q), body + tail, HideAll(body[..n]), InLiteral(q), body[n..] + tail,
                HideAll(body[n..]), Blank(InLiteral(q), tail));
    }
  }

  lemma BlankNothing()
    ensures forall m :: Blank(m, []) == []
  {
  }

  lemma BlankBlockComment(body: string, closed: bool, tail: string)
    requires NoClose(body) && (closed || tail == [])
    ensures Blank(Code, Text(BlockComment(body, closed)) + tail) == Masked(BlockComment(body, closed)) + Blank(Code, tail)
  {
    hide Blank, HideAll, NoClose;
    var close := (if closed then "*/" else "") + tail;
    var s := Text(BlockComment(body, closed)) + tail;
    assert s[2..] == body + close;
    BlankBlockBody(body, close);
    MovesThen(Code, s, "  ", InBlock, body + close, HideAll(body), Blank(InBlock, close));
    if closed {
      Moves(InBlock, close, "  ", Code, tail);
      Regroup("  " + HideAll(body), "  ", Blank(Code, tail));
    } else {
      assert close == [] && "  " + HideAll(body) + "" == "  " + HideAll(body);
      assert Blank(InBlock, []) == [] && Blank(Code, []) == [] by {
        BlankNothing();
      }
    }
  }

  /** The end of a line means the same inside an unfinished literal or a line comment as outside it. */
  lemma BlankAtLineEnd(m: Mode, tail: string)
    requires m.InLine? || m.InLiteral?
    requires tail == [] || tail[0] == '\n'
    ensures Blank(m, tail) == Blank(Code, tail)
  {
    if tail != [] {
      Moves(m, tail, "\n", Code, tail[1..]);
      Moves(Code, tail, "\n", Code, tail[1..]);
    }
  }

  lemma BlankClosing(q: char, ending: Ending, tail: string)
    requires IsQuote(q)
    requires ending.Cut? ==> tail == [] || tail[0] == '\n'
    requires ending.Dangling? ==> tail == []
    ensures Blank(InLiteral(q), Closing(q, ending) + tail)
         == (if ending.Dangling? then " " else Closing(q, ending)) + Blank(Code, tail)
  {
    match ending
    case Closed => Moves(InLiteral(q), Closing(q, ending) + tail, [q], Code, tail);
    case Dangling => Moves(InLiteral(q), Closing(q, ending) + tail, " ", InLiteral(q), []);
    case Cut =>
      assert Closing(q, ending) + tail == tail;
      BlankAtLineEnd(InLiteral(q), tail);
  }

  lemma BlankLiteral(q: char, body: string, ending: Ending, tail: string)
    requires IsQuote(q) && LiteralBody(q, body)
    requires ending.Cut? ==> tail == [] || tail[0] == '\n'
    requires ending.Dangling? ==> tail == []
    ensures Blank(Code, Text(Literal(q, body, ending)) + tail) == Masked(Literal(q, body, ending)) + Blank(Code, tail)
  {
    hide Blank, HideAll, LiteralBody;
    var close := Closing(q, ending) + tail;
    var s := Text(Literal(q, body, ending)) + tail;
    assert s[0] == q && s[1..] == body + close;
    BlankLiteralBody(q, body, close);
    MovesThen(Code, s, [q], InLiteral(q), body + close, HideAll(body), Blank(InLiteral(q), close));
    BlankClosing(q, ending, tail);
    Regroup([q] + HideAll(body), if ending.Dangling? then " " else Closing(q, ending), Blank(Code, tail));
  }

  lemma BlankLineComment(body: string, tail: string)
    requires '\n' !in body
    requires tail == [] || tail[0] == '\n'
    ensures Blank(Code, Text(LineComment(body)) + tail) == Masked(LineComment(body)) + Blank(Code, tail)
  {
    var s := Text(LineComment(body)) + tail;
    assert s[2..] == body + tail;
    BlankLineBody(body, tail);
    BlankAtLineEnd(InLine, tail);
    MovesThen(Code, s, "  ", InLine, body + tail, HideAll(body), Blank(Code, tail));
  }

  /** One token in front of any text it fits: the lexer masks the token and is back in code mode. */
  lemma BlankToken(t: Token, rest: seq<Token>)
    requires Fits(t, rest)
    ensures Blank(Code, Text(t) + Print(rest)) == Masked(t) + Blank(Code, Print(rest))
  {
    if t.Char? {
      Moves(Code, [t.c] + Print(rest), [t.c], Code, Print(rest));
    } else if t.BlockComment? {
      BlankBlockComment(t.body, t.closed, Print(rest));
    } else if t.LineComment? {
      BlankLineComment(t.body, Print(rest));
    } else {
      BlankLiteral(t.quote, t.body, t.ending, Print(rest));
    }
  }

  /** Blanking a printed token list masks exactly its comments and literal contents. */
  lemma {:induction false} BlankAgreesWithTokens(toks: seq<Token>)
    requires WellFormed(toks)
    ensures Blank(Code, Print(toks)) == Mask(toks)
  {
    if toks != [] {
      BlankToken(toks[0], toks[1..]);
      BlankAgreesWithTokens(toks[1..]);
    }
  }

  // --- every text is printed by some well-formed token list ---

  /** How much of `s` a line comment takes. */
  function LineSpan(s: string): (n: nat)
    ensures n <= |s| && '\n' !in s[..n]
    ensures n < |s| ==> s[n] == '\n'
  {
    if s == [] || s[0] == '\n' then 0 else 1 + LineSpan(s[1..])
  }

  /** How much of `s` stands before the first `*` `/` pair. */
  function BlockSpan(s: string): (n: nat)
    ensures n <= |s| && NoClose(s[..n])
    ensures n < |s| ==> Pair(s[n..], '*', '/')
    ensures s != [] && !Pair(s, '*', '/') ==> n >= 1
  {
    if s == [] || Pair(s, '*', '/') then 0 else 1 + BlockSpan(s[1..])
  }

  /** How much of `s` a literal opened with `q` holds. */
  function LiteralSpan(q: char, s: string): (n: nat)
    ensures n <= |s| && LiteralBody(q, s[..n])
    ensures n < |s| ==> s[n] == q || s[n] == '\n' || s[n..] == "\\"
    decreases |s|
  {
    if s == [] then 0
    else if s[0] == '\\' then
      if |s| == 1 then 0
      else
        var n := 2 + LiteralSpan(q, s[2..]);
        assert s[..n][2..] == s[2..][..n - 2];
        n
    else if s[0] == q || s[0] == '\n' then 0
    else
      var n := 1 + LiteralSpan(q, s[1..]);
      assert s[..n][1..] == s[1..][..n - 1];
      n
  }

  function LineToken(s: string): (t: Token)
    requires Pair(s, '/', '/')
    ensures t.LineComment? && '\n' !in t.body
    ensures Text(t) <= s && (|Text(t)| < |s| ==> s[|Text(t)|] == '\n')
  {
    var n := LineSpan(s[2..]);
    assert s[..2 + n] == "//" + s[2..][..n];
    LineComment(s[2..][..n])
  }

  function BlockToken(s: string): (t: Token)
    requires Pair(s, '/', '*')
    ensures t.BlockComment? && NoClose(t.body)
    ensures Text(t) <= s && (t.closed || Text(t) == s)
  {
    var n := BlockSpan(s[2..]);
    var body := s[2..][..n];
    assert s[..2 + n] == "/*" + body;
    assert 2 + n < |s| ==> s[..4 + n] == "/*" + body + "*/" by {
      if 2 + n < |s| {
        assert s[2 + n..] == s[2..][n..];
      }
    }
    BlockComment(body, 2 + n < |s|)
  }

  /** What a literal takes of a text that opens with it. */
  lemma LiteralTexts(q: char, body: string, rest: string)
    ensures var s := [q] + body + rest;
      && Text(Literal(q, body, Cut)) == [q] + body <= s
      && (rest != [] ==> s[1 + |body|] == rest[0])
      && (rest != [] && rest[0] == q ==> Text(Literal(q, body, Closed)) <= s)
      && (rest == "\\" ==> Text(Literal(q, body, Dangling)) == s)
  {
    var s := [q] + body + rest;
    assert [q] + body + [] == [q] + body;
    if rest != [] {
      assert rest == [rest[0]] + rest[1..];
      assert s == [q] + body + [rest[0]] + rest[1..];
    }
  }

  function LiteralToken(s: string): (t: Token)
    requires s != [] && IsQuote(s[0])
    ensures t.Literal? && t.quote == s[0] && LiteralBody(s[0], t.body)
    ensures Text(t) <= s
    ensures t.ending.Dangling? ==> Text(t) == s
    ensures t.ending.Cut? ==> Text(t) == s || s[|Text(t)|] == '\n'
  {
    var n := LiteralSpan(s[0], s[1..]);
    var body, rest := s[1..][..n], s[1..][n..];
    assert s == [s[0]] + body + rest;
    LiteralTexts(s[0], body, rest);
    if rest == [] || rest[0] == '\n' then Literal(s[0], body, Cut)
    else Literal(s[0], body, if rest[0] == s[0] then Closed else Dangling)
  }

  /** The token `s` starts with. */
  function FirstToken(s: string): (t: Token)
    requires s != []
    ensures Text(t) <= s
  {
    if Pair(s, '/', '/') then LineToken(s)
    else if Pair(s, '/', '*') then BlockToken(s)
    else if IsQuote(s[0]) then LiteralToken(s)
    else Char(s[0])
  }

  function Lex(s: string): seq<Token>
    decreases |s|
  {
    if s == [] then [] else [FirstToken(s)] + Lex(s[|Text(FirstToken(s))|..])
  }

  lemma FirstTokenFits(s: string, rest: seq<Token>)
    requires s != [] && Print(rest) == s[|Text(FirstToken(s))|..]
    requires Print(rest) != [] && Print(rest)[0] == '\n' ==> rest[0] == Char('\n')
    ensures Fits(FirstToken(s), rest)
  {
    hide LineToken, BlockToken, LiteralToken;
    assert Print(rest) == [] ==> rest == [];
    var k := |Text(FirstToken(s))|;
    assert k < |s| ==> Print(rest)[0] == s[k];
  }

  lemma PrintNothing()
    ensures WellFormed([]) && Print([]) == []
  {
  }

  lemma NewlineToken(s: string)
    requires s != []
    ensures s[0] == '\n' ==> FirstToken(s) == Char('\n')
  {
  }

  /** The tokens of `Lex` are well formed and print back to the text they were read from. */
  lemma {:induction false} LexPrints(s: string)
    ensures WellFormed(Lex(s)) && Print(Lex(s)) == s
    ensures s != [] && s[0] == '\n' ==> Lex(s) != [] && Lex(s)[0] == Char('\n')
    decreases |s|
  {
    hide FirstToken, Fits, Print, WellFormed;
    if s == [] {
      PrintNothing();
    } else {
      var t := FirstToken(s);
      var k := |Text(t)|;
      var rest := Lex(s[k..]);
      NewlineToken(s);
      LexPrints(s[k..]);
      FirstTokenFits(s, rest);
      OneMore(t, rest);
      assert Lex(s) == [t] + rest;
      assert s == s[..k] + s[k..] && s[..k] == Text(t);
    }
  }

  /** So blanking any text at all masks exactly the comments and literal contents of its tokens. */
  lemma BlankIsMaskOfLex(s: string)
    ensures Blank(Code, s) == Mask(Lex(s))
  {
    LexPrints(s);
    BlankAgreesWithTokens(Lex(s));
  }

  // --- blanking twice ---

  /** No literal carries an escaped line break. */
  predicate OneLineLiterals(toks: seq<Token>) {
    forall i :: 0 <= i < |toks| && toks[i].Literal? ==> '\n' !in toks[i].body
  }

  function Chars(s: string): seq<Token> {
    seq(|s|, i requires 0 <= i < |s| => Char(s[i]))
  }

  /** The tokens of a masked token: its comment is white space now, its literal holds spaces. */
  function Softened(t: Token): seq<Token> {
    match t
    case Char(_) => [t]
    case Literal(q, body, ending) =>
      if ending.Dangling? then [Literal(q, HideAll(body) + " ", Cut)] else [Literal(q, HideAll(body), ending)]
    case _ => Chars(Masked(t))
  }

  function Soften(toks: seq<Token>): seq<Token> {
    if toks == [] then [] else Softened(toks[0]) + Soften(toks[1..])
  }

  lemma {:induction false} WhiteBefore(s: string, rest: seq<Token>)
    requires WellFormed(rest)
    requires forall i :: 0 <= i < |s| ==> s[i] == ' ' || s[i] == '\n'
    ensures WellFormed(Chars(s) + rest)
    ensures Print(Chars(s) + rest) == s + Print(rest) && Mask(Chars(s) + rest) == s + Mask(rest)
  {
    if s == [] {
      assert Chars(s) + rest == rest;
      assert s + Print(rest) == Print(rest) && s + Mask(rest) == Mask(rest);
    } else {
      assert (Chars(s) + rest)[1..] == Chars(s[1..]) + rest;
      WhiteBefore(s[1..], rest);
      assert s == [s[0]] + s[1..];
      Regroup([s[0]], s[1..], Print(rest));
      Regroup([s[0]], s[1..], Mask(rest));
    }
  }

  lemma {:induction false} BlanksAreALiteralBody(q: char, s: string)
    requires IsQuote(q)
    requires forall i :: 0 <= i < |s| ==> s[i] == ' '
    ensures LiteralBody(q, s)
  {
    if s != [] {
      BlanksAreALiteralBody(q, s[1..]);
    }
  }

  /** A token in front of a list prints and masks in front of what the list does. */
  lemma OneMore(t: Token, rest: seq<Token>)
    ensures Print([t] + rest) == Text(t) + Print(rest) && Mask([t] + rest) == Masked(t) + Mask(rest)
    ensures WellFormed([t] + rest) <==> Fits(t, rest) && WellFormed(rest)
  {
    assert ([t] + rest)[1..] == rest;
  }

  lemma SoftenOne(t: Token, rest: seq<Token>, soft: seq<Token>)
    requires Fits(t, rest) && (t.Literal? ==> '\n' !in t.body)
    requires WellFormed(soft) && Print(soft) == Mask(rest) && Mask(soft) == Mask(rest)
    requires SameShape(Print(rest), Mask(rest))
    requires AtLineEnd(rest) ==> AtLineEnd(soft)
    ensures WellFormed(Softened(t) + soft)
    ensures Print(Softened(t) + soft) == Masked(t) + Mask(rest) && Mask(Softened(t) + soft) == Masked(t) + Mask(rest)
  {
    hide WellFormed, Print, Mask;
    match t
    case Char(_) => OneMore(t, soft);
    case Literal(q, body, ending) =>
      var t' := Softened(t)[0];
      BlanksAreALiteralBody(q, t'.body);
      assert HideAll(t'.body) == t'.body;
      assert Text(t') == Masked(t) == Masked(t') by {
        if ending.Dangling? {
          assert [q] + (HideAll(body) + " ") == [q] + HideAll(body) + " ";
        }
      }
      OneMore(t', soft);
    case _ => WhiteBefore(Masked(t), soft);
  }

  lemma {:induction false} SoftenIsFixed(toks: seq<Token>)
    requires WellFormed(toks) && OneLineLiterals(toks)
    ensures WellFormed(Soften(toks)) && Print(Soften(toks)) == Mask(toks) && Mask(Soften(toks)) == Mask(toks)
    ensures AtLineEnd(toks) ==> AtLineEnd(Soften(toks))
  {
    if toks != [] {
      var rest := toks[1..];
      SoftenIsFixed(rest);
      BlankKeepsShape(Code, Print(rest));
      BlankAgreesWithTokens(rest);
      SoftenOne(toks[0], rest, Soften(rest));
    }
  }

  /** Blanking is idempotent on every text whose literals stay on one line. */
  lemma BlankIsIdempotent(s: string)
    requires OneLineLiterals(Lex(s))
    ensures Blank(Code, Blank(Code, s)) == Blank(Code, s)
  {
    LexPrints(s);
    BlankAgreesWithTokens(Lex(s));
    SoftenIsFixed(Lex(s));
    BlankAgreesWithTokens(Soften(Lex(s)));
  }

  // --- exactly when twice is once ---

  /** Where a second pass stands: in step with the first, or inside a literal that is none, opened by a quote that
      closed one. */
  datatype Second = InStep | Astray(quote: char)

  function ModeOf(at: Second): Mode {
    match at case InStep => Code case Astray(q) => InLiteral(q)
  }

  /** Behind white space a second pass is in step again if the white space holds a line break. */
  function Behind(at: Second, white: string): Second {
    if '\n' in white then InStep else at
  }

  /** Whether a second pass over what the first leaves of `toks` changes nothing. In step, only the closing quote of a
      literal with a line break in its body leads astray. Astray, up to the end of the line there must be nothing but
      spaces, comments, and literals of the same quote. */
  predicate Steady(at: Second, toks: seq<Token>)
    decreases |toks|
  {
    if toks == [] then true
    else
      var t, rest := toks[0], toks[1..];
      match t
      case Char(c) =>
        (at.Astray? ==> c == ' ' || c == '\n') && Steady(if c == '\n' then InStep else at, rest)
      case Literal(q, body, ending) =>
        var broken := at.Astray? || '\n' in body;
        (at.Astray? ==> at.quote == q) && Steady(if broken == ending.Closed? then Astray(q) else InStep, rest)
      case _ => Steady(Behind(at, Masked(t)), rest)
  }

  predicate White(s: string) {
    forall i :: 0 <= i < |s| ==> s[i] == ' ' || s[i] == '\n'
  }

  lemma WhiteMoves(at: Second, c: char, tail: string)
    requires (c == ' ' || c == '\n') && (at.Astray? ==> IsQuote(at.quote))
    ensures Blank(ModeOf(at), [c] + tail) == [c] + Blank(ModeOf(if c == '\n' then InStep else at), tail)
  {
    assert ([c] + tail)[1..] == tail;
    Moves(ModeOf(at), [c] + tail, [c], ModeOf(if c == '\n' then InStep else at), tail);
  }

  lemma {:induction false} BlankWhite(at: Second, s: string, tail: string)
    requires White(s) && (at.Astray? ==> IsQuote(at.quote))
    ensures Blank(ModeOf(at), s + tail) == s + Blank(ModeOf(Behind(at, s)), tail)
    decreases |s|
  {
    hide Blank, IsQuote;
    if s == [] {
      assert s + tail == tail;
      assert s + Blank(ModeOf(at), tail) == Blank(ModeOf(at), tail);
    } else {
      var next := if s[0] == '\n' then InStep else at;
      BlankWhite(next, s[1..], tail);
      WhiteMoves(at, s[0], s[1..] + tail);
      assert s + tail == [s[0]] + (s[1..] + tail);
      assert Behind(next, s[1..]) == Behind(at, s);
      FirstOff(s, Blank(ModeOf(Behind(at, s)), tail));
    }
  }

  lemma FirstOff(s: string, t: string)
    requires s != []
    ensures s + t == [s[0]] + (s[1..] + t)
  {
  }

  lemma SameTails(a: string, x: string, y: string)
    ensures a + x == a + y <==> x == y
  {
    assert (a + x)[|a|..] == x && (a + y)[|a|..] == y;
  }

  lemma MaskedIsWhite(t: Token)
    requires t.LineComment? || t.BlockComment?
    ensures White(Masked(t))
  {
  }

  /** A character of the code. */
  lemma CharTwice(at: Second, c: char, tail: string)
    requires !IsQuote(c) && (at.Astray? ==> IsQuote(at.quote)) && (c == '/' && tail != [] ==> tail[0] != '/' && tail[0] != '*')
    ensures Blank(ModeOf(at), [c] + tail) == [c] + tail
      <==> (at.Astray? ==> c == ' ' || c == '\n') && Blank(ModeOf(if c == '\n' then InStep else at), tail) == tail
  {
    var s := [c] + tail;
    assert s[1..] == tail;
    if at.InStep? || c == ' ' || c == '\n' {
      Moves(ModeOf(at), s, [c], ModeOf(if c == '\n' then InStep else at), tail);
      SameTails([c], Blank(ModeOf(if c == '\n' then InStep else at), tail), tail);
    } else {
      assert Move(ModeOf(at), s).0[0] == ' ';
      assert Blank(ModeOf(at), s)[0] == ' ' != s[0];
    }
  }

  /** The quote a literal opens with: it opens one, or closes the one that is none. */
  lemma QuoteTwice(at: Second, q: char, tail: string)
    requires IsQuote(q) && (at.Astray? ==> IsQuote(at.quote))
    ensures Blank(ModeOf(at), [q] + tail) == [q] + tail
      <==> (at.Astray? ==> at.quote == q) && Blank(ModeOf(if at.Astray? then InStep else Astray(q)), tail) == tail
  {
    var s, next := [q] + tail, if at.Astray? then InStep else Astray(q);
    assert s[1..] == tail;
    if at.InStep? || at.quote == q {
      Moves(ModeOf(at), s, [q], ModeOf(next), tail);
      SameTails([q], Blank(ModeOf(next), tail), tail);
    } else {
      assert Move(ModeOf(at), s).0[0] == ' ';
      assert Blank(ModeOf(at), s)[0] == ' ' != s[0];
    }
  }

  lemma WhiteTwice(at: Second, s: string, tail: string)
    requires White(s) && (at.Astray? ==> IsQuote(at.quote))
    ensures Blank(ModeOf(at), s + tail) == s + tail <==> Blank(ModeOf(Behind(at, s)), tail) == tail
  {
    BlankWhite(at, s, tail);
    SameTails(s, Blank(ModeOf(Behind(at, s)), tail), tail);
  }

  lemma LiteralTwice(at: Second, t: Token, tail: string)
    requires t.Literal? && IsQuote(t.quote) && (at.Astray? ==> IsQuote(at.quote))
    ensures var broken := at.Astray? || '\n' in t.body;
      Blank(ModeOf(at), Masked(t) + tail) == Masked(t) + tail
      <==> (at.Astray? ==> at.quote == t.quote)
           && Blank(ModeOf(if broken == t.ending.Closed? then Astray(t.quote) else InStep), tail) == tail
  {
    hide Blank, Masked, HiddenBody, White, ModeOf, HideAll;
    var q, inside := t.quote, if at.Astray? then InStep else Astray(t.quote);
    var white := HiddenBody(t);
    var end := if t.ending.Closed? then [q] else [];
    HiddenBreaks(t);
    MaskedInThree(t, tail);
    QuoteTwice(at, q, white + (end + tail));
    WhiteTwice(inside, white, end + tail);
    if t.ending.Closed? {
      QuoteTwice(Behind(inside, white), q, tail);
    } else {
      assert end + tail == tail;
    }
  }

  /** What is left between the quotes of a literal. */
  function HiddenBody(t: Token): string
    requires t.Literal?
  {
    HideAll(t.body) + (if t.ending.Dangling? then " " else "")
  }

  lemma MaskedInThree(t: Token, tail: string)
    requires t.Literal?
    ensures Masked(t) + tail == [t.quote] + (HiddenBody(t) + ((if t.ending.Closed? then [t.quote] else []) + tail))
  {
    hide HideAll;
  }

  lemma HiddenBreaks(t: Token)
    requires t.Literal?
    ensures White(HiddenBody(t)) && ('\n' in HiddenBody(t) <==> '\n' in t.body)
  {
    if '\n' in t.body {
      var k :| 0 <= k < |t.body| && t.body[k] == '\n';
      assert HiddenBody(t)[k] == '\n';
    }
  }

  lemma {:induction false} SteadyIff(at: Second, toks: seq<Token>)
    requires WellFormed(toks) && (at.Astray? ==> IsQuote(at.quote))
    ensures Blank(ModeOf(at), Mask(toks)) == Mask(toks) <==> Steady(at, toks)
    decreases |toks|
  {
    hide Blank, Masked, Behind, IsQuote;
    if toks == [] {
      BlankNothingIn(ModeOf(at));
    } else {
      var t, rest := toks[0], toks[1..];
      match t
      case Char(c) =>
        var next := if c == '\n' then InStep else at;
        FirstMasked(c, rest);
        MaskedChar(c);
        CharTwice(at, c, Mask(rest));
        SteadyIff(next, rest);
      case Literal(q, body, ending) =>
        var broken := at.Astray? || '\n' in body;
        var next := if broken == ending.Closed? then Astray(q) else InStep;
        LiteralTwice(at, t, Mask(rest));
        SteadyIff(next, rest);
      case _ =>
        var next := Behind(at, Masked(t));
        MaskedIsWhite(t);
        WhiteTwice(at, Masked(t), Mask(rest));
        BehindQuote(at, Masked(t));
        SteadyIff(next, rest);
    }
  }

  lemma BlankNothingIn(m: Mode)
    ensures Blank(m, []) == []
  {
  }

  lemma BehindQuote(at: Second, white: string)
    requires at.Astray? ==> IsQuote(at.quote)
    ensures Behind(at, white).Astray? ==> IsQuote(Behind(at, white).quote)
  {
  }

  lemma MaskedChar(c: char)
    ensures Masked(Char(c)) == [c]
  {
  }

  lemma FirstMasked(c: char, rest: seq<Token>)
    requires Fits(Char(c), rest) && WellFormed(rest)
    ensures !IsQuote(c) && (c == '/' && Mask(rest) != [] ==> Mask(rest)[0] != '/' && Mask(rest)[0] != '*')
  {
    hide Blank;
    BlankAgreesWithTokens(rest);
    BlankKeepsShape(Code, Print(rest));
  }

  /** On every text: blanking twice is blanking once if and only if no second pass is led astray into anything but
      spaces, comments and literals of the same quote before the end of the line. */
  lemma IdempotentIff(s: string)
    ensures Blank(Code, Blank(Code, s)) == Blank(Code, s) <==> Steady(InStep, Lex(s))
  {
    hide Blank, Steady;
    LexPrints(s);
    BlankAgreesWithTokens(Lex(s));
    SteadyIff(InStep, Lex(s));
  }

  /** So a closed literal with an ordinary character behind it is blanked twice as once if and only if it holds no
      escaped line break. */
  lemma IdempotentIffOneLine(q: char, body: string, c: char)
    requires IsQuote(q) && LiteralBody(q, body)
    requires !IsQuote(c) && c != ' ' && c != '\n' && c != '\\'
    ensures var s := [q] + body + [q] + [c];
      Blank(Code, Blank(Code, s)) == Blank(Code, s) <==> '\n' !in body
  {
    hide Blank;
    var t, u := Literal(q, body, Closed), Char(c);
    PrintTwo(t, u);
    BlankAgreesWithTokens([t, u]);
    assert Text(t) + Text(u) == [q] + body + [q] + [c];
    SteadyIff(InStep, [t, u]);
    assert [t, u][1..] == [u] && [u][1..] == [];
    assert Steady(InStep, [t, u]) <==> Steady(if '\n' in body then Astray(q) else InStep, [u]);
  }

  lemma PrintTwo(t: Token, u: Token)
    requires Fits(t, [u]) && Fits(u, [])
    ensures WellFormed([t, u]) && Print([t, u]) == Text(t) + Text(u) && Mask([t, u]) == Masked(t) + Masked(u)
  {
    OneMore(u, []);
    OneMore(t, [u]);
    assert [u] + [] == [u] && [t] + [u] == [t, u];
    assert Text(u) + [] == Text(u) && Masked(u) + [] == Masked(u);
  }
}
