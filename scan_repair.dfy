/** The character-scanning tokenizer of risp/src/lexer/implementation.rs as
    its unit tests expect it to behave: an ordinary character is consumed and
    moves the column on, and the buffer is also flushed before a parenthesis
    and once the program has been read, and a `\r` followed by `\n` is one
    line break. Other layout characters are handled as in `ScanLexer.Step`.
    On programs whose only whitespace is a space, `\n` or
    `\r`, the repaired scanner yields the same tokens, positions aside, as the
    whitespace-splitting tokenizer of `EvalLexer`. */
module ScanRepair {
  import opened Wrappers
  import opened Text
  import opened ScanLexer
  import EvalLexer

  /** One pass of the repaired loop body. A `\r` directly followed by `\n`
      is consumed together with it, as one line break. */
  function FixedStep(p: string, s: Scan): (t: Scan)
    requires s.i < |p|
    ensures s.i < t.i <= |p|
  {
    var c := p[s.i];
    if c == '(' then
      Scan(s.i + 1, s.ch + 1, s.line, "", s.tokens + ParseBuffer(s.buffer, s.ch, s.line) + [LParen(Content((), s.ch, s.line))])
    else if c == ')' then
      Scan(s.i + 1, s.ch + 1, s.line, "", s.tokens + ParseBuffer(s.buffer, s.ch, s.line) + [RParen(Content((), s.ch, s.line))])
    else if c == '\r' then
      var i := if s.i + 1 < |p| && p[s.i + 1] == '\n' then s.i + 2 else s.i + 1;
      Scan(i, 0, s.line + 1, "", s.tokens + ParseBuffer(s.buffer, s.ch, s.line))
    else if IsLayout(c) then Step(p, s)
    else Scan(s.i + 1, s.ch + 1, s.line, s.buffer + [c], s.tokens)
  }

  /** The repaired loop from state `s` to the end of the program, followed by
      the final flush of the buffer. */
  function FixedRun(p: string, s: Scan): seq<Token>
    decreases |p| - s.i
  {
    if s.i >= |p| then s.tokens + ParseBuffer(s.buffer, s.ch, s.line)
    else FixedRun(p, FixedStep(p, s))
  }

  /** The repaired `tokenize`. */
  method FixedTokenize(program: string) returns (tokens: seq<Token>)
    ensures tokens == FixedRun(program, Init)
  {
    tokens := [];
    var line: nat := 0;
    var ch: nat := 0;
    var buffer: string := "";
    var i := 0;
    while i < |program|
      invariant 0 <= i <= |program|
      invariant FixedRun(program, Scan(i, ch, line, buffer, tokens)) == FixedRun(program, Init)
      decreases |program| - i
    {
      ghost var s := Scan(i, ch, line, buffer, tokens);
      var current := program[i];
      if current == '(' || current == ')' {
        tokens := tokens + ParseBuffer(buffer, ch, line);
        buffer := "";
        tokens := tokens + [if current == '(' then LParen(Content((), ch, line)) else RParen(Content((), ch, line))];
        ch := ch + 1;
      } else if current == ' ' {
        tokens := tokens + ParseBuffer(buffer, ch, line);
        buffer := "";
        ch := ch + 1;
      } else if current == '\n' || current == '\r' {
        if current == '\r' && i + 1 < |program| && program[i + 1] == '\n' {
          i := i + 1;
        }
        tokens := tokens + ParseBuffer(buffer, ch, line);
        buffer := "";
        line := line + 1;
        ch := 0;
      } else {
        buffer := buffer + [current];
        ch := ch + 1;
      }
      i := i + 1;
      assert Scan(i, ch, line, buffer, tokens) == FixedStep(program, s);
    }
    tokens := tokens + ParseBuffer(buffer, ch, line);
  }

  // ---------------------------------------------------------------------------
  // Agreement with the whitespace-splitting tokenizer

  /** A token without its position. */
  function Plain(t: Token): EvalLexer.Token {
    match t
    case Integer(c) => EvalLexer.Integer(c.content)
    case Symbol(c) => EvalLexer.Symbol(c.content)
    case LParen(_) => EvalLexer.LParen
    case RParen(_) => EvalLexer.RParen
  }

  function PlainAll(ts: seq<Token>): (r: seq<EvalLexer.Token>)
    ensures |r| == |ts| && forall k :: 0 <= k < |ts| ==> r[k] == Plain(ts[k])
  {
    if ts == [] then [] else [Plain(ts[0])] + PlainAll(ts[1..])
  }

  lemma PlainAllConcat(a: seq<Token>, b: seq<Token>)
    ensures PlainAll(a + b) == PlainAll(a) + PlainAll(b)
  {
  }

  /** The only whitespace in the program is a space, `\n` or `\r`: every
      character is then a layout character or an ordinary one. */
  predicate SimpleWhitespace(p: string) {
    forall k :: 0 <= k < |p| ==> (IsWhitespace(p[k]) ==> p[k] == ' ' || p[k] == '\n' || p[k] == '\r')
  }

  /** The token a flushed buffer yields is the classified buffer. */
  lemma FlushClassifies(buffer: string, ch: nat, line: nat)
    requires AllOrdinary(buffer)
    ensures PlainAll(ParseBuffer(buffer, ch, line)) == EvalLexer.ClassifyAll(if buffer == [] then [] else [buffer])
  {
    if buffer != [] {
      assert buffer != "(" && buffer != ")" by {
        assert IsOrdinary(buffer[0]);
      }
      assert EvalLexer.ClassifyAll([buffer]) == [EvalLexer.Classify(buffer)];
    }
  }

  /** The lexemes of the buffer followed by the rest of the program, when the
      next character is not ordinary. */
  lemma LexemesAfterBuffer(buffer: string, rest: string)
    requires AllOrdinary(buffer) && (rest == [] || !IsOrdinary(rest[0]))
    ensures EvalLexer.Lexemes(buffer + rest) == (if buffer == [] then [] else [buffer]) + EvalLexer.Lexemes(rest)
  {
    if buffer != [] {
      EvalLexer.LexemesWord(buffer, rest);
    } else {
      assert buffer + rest == rest;
    }
  }

  /** The tokens of a buffer followed by a character that is not ordinary:
      the flushed buffer comes first. */
  lemma FlushFirst(buffer: string, ch: nat, line: nat, rest: string)
    requires AllOrdinary(buffer) && (rest == [] || !IsOrdinary(rest[0]))
    ensures EvalLexer.Tokens(buffer + rest) == PlainAll(ParseBuffer(buffer, ch, line)) + EvalLexer.Tokens(rest)
  {
    var word := if buffer == [] then [] else [buffer];
    LexemesAfterBuffer(buffer, rest);
    FlushClassifies(buffer, ch, line);
    EvalLexer.ClassifyAllConcat(word, EvalLexer.Lexemes(rest));
  }

  /** The tokens of a program that starts with a layout character. */
  lemma LayoutFirst(c: char, rest: string)
    requires IsLayout(c)
    ensures IsParen(c) ==> EvalLexer.Tokens([c] + rest) == [EvalLexer.Classify([c])] + EvalLexer.Tokens(rest)
    ensures !IsParen(c) ==> EvalLexer.Tokens([c] + rest) == EvalLexer.Tokens(rest)
  {
    if IsParen(c) {
      EvalLexer.LexemesParen(c, rest);
      EvalLexer.ClassifyAllConcat([[c]], EvalLexer.Lexemes(rest));
    } else {
      EvalLexer.LexemesWhitespace(c, rest);
    }
  }

  /** The token a layout character pushes itself: a parenthesis token, or
      nothing. */
  function Pushed(c: char, ch: nat, line: nat): seq<Token> {
    if c == '(' then [LParen(Content((), ch, line))]
    else if c == ')' then [RParen(Content((), ch, line))]
    else []
  }

  /** A repaired pass over a layout character flushes the buffer and then
      pushes the character's own token. */
  lemma LayoutPass(p: string, s: Scan)
    requires s.i < |p| && IsLayout(p[s.i])
    ensures FixedStep(p, s).buffer == []
    ensures FixedStep(p, s).tokens == s.tokens + ParseBuffer(s.buffer, s.ch, s.line) + Pushed(p[s.i], s.ch, s.line)
    ensures FixedStep(p, s).i == s.i + 1 || (FixedStep(p, s).i == s.i + 2 && s.i + 1 < |p| && p[s.i + 1] == '\n')
  {
  }

  /** The character's own token is the token of its lexemes. */
  lemma PushedTokens(c: char, ch: nat, line: nat, rest: string)
    requires IsLayout(c)
    ensures EvalLexer.Tokens([c] + rest) == PlainAll(Pushed(c, ch, line)) + EvalLexer.Tokens(rest)
  {
    LayoutFirst(c, rest);
    if !IsParen(c) {
      assert Pushed(c, ch, line) == [];
    }
  }

  /** The tokens of buffer, layout character and rest, split into the three. */
  lemma LayoutTokens3(buffer: string, c: char, ch: nat, line: nat, rest: string)
    requires IsLayout(c) && AllOrdinary(buffer)
    ensures EvalLexer.Tokens(buffer + ([c] + rest)) ==
      PlainAll(ParseBuffer(buffer, ch, line)) + (PlainAll(Pushed(c, ch, line)) + EvalLexer.Tokens(rest))
  {
    FlushFirst(buffer, ch, line, [c] + rest);
    PushedTokens(c, ch, line, rest);
  }

  /** The plain tokens of the pushed tokens, split into the three parts. */
  lemma PlainAll3(a: seq<Token>, b: seq<Token>, c: seq<Token>)
    ensures PlainAll(a + b + c) == PlainAll(a) + PlainAll(b) + PlainAll(c)
  {
    PlainAllConcat(a, b);
    PlainAllConcat(a + b, c);
  }

  /** One layout character: the tokens the repaired pass pushes, followed by
      the tokens of the rest, are the tokens of buffer, character and rest. */
  lemma LayoutStep(tokens: seq<Token>, buffer: string, c: char, ch: nat, line: nat, rest: string)
    requires IsLayout(c) && AllOrdinary(buffer)
    ensures PlainAll(tokens) + EvalLexer.Tokens(buffer + ([c] + rest)) ==
      PlainAll(tokens + ParseBuffer(buffer, ch, line) + Pushed(c, ch, line)) + EvalLexer.Tokens(rest)
  {
    LayoutTokens3(buffer, c, ch, line, rest);
    PlainAll3(tokens, ParseBuffer(buffer, ch, line), Pushed(c, ch, line));
    Regroup(PlainAll(tokens), PlainAll(ParseBuffer(buffer, ch, line)), PlainAll(Pushed(c, ch, line)), EvalLexer.Tokens(rest));
  }

  lemma Regroup<T>(a: seq<T>, b: seq<T>, c: seq<T>, r: seq<T>)
    ensures a + (b + (c + r)) == a + b + c + r
  {
  }

  /** A repaired pass keeps the buffer ordinary, and the tokens pushed so far
      followed by the tokens of buffer and rest stay the same. */
  lemma PassKeepsTokens(p: string, s: Scan)
    requires s.i < |p| && SimpleWhitespace(p) && AllOrdinary(s.buffer)
    ensures var t := FixedStep(p, s);
      AllOrdinary(t.buffer) &&
      PlainAll(s.tokens) + EvalLexer.Tokens(s.buffer + p[s.i..]) == PlainAll(t.tokens) + EvalLexer.Tokens(t.buffer + p[t.i..])
  {
    var c := p[s.i];
    if IsOrdinary(c) {
      var t := FixedStep(p, s);
      assert AllOrdinary(t.buffer);
      assert t.buffer + p[t.i..] == s.buffer + p[s.i..];
    } else {
      assert IsLayout(c) by { assert IsWhitespace(c) ==> c == ' ' || c == '\n' || c == '\r'; }
      LayoutKeepsTokens(p, s);
    }
  }

  /** The same for a pass over a layout character. */
  lemma LayoutKeepsTokens(p: string, s: Scan)
    requires s.i < |p| && IsLayout(p[s.i]) && AllOrdinary(s.buffer)
    ensures var t := FixedStep(p, s);
      AllOrdinary(t.buffer) &&
      PlainAll(s.tokens) + EvalLexer.Tokens(s.buffer + p[s.i..]) == PlainAll(t.tokens) + EvalLexer.Tokens(t.buffer + p[t.i..])
  {
    var c := p[s.i];
    var t := FixedStep(p, s);
    LayoutPass(p, s);
    assert p[s.i..] == [c] + p[s.i + 1..];
    LayoutStep(s.tokens, s.buffer, c, s.ch, s.line, p[s.i + 1..]);
    RestAfterBreak(p, s.i, t.i);
    assert t.buffer + p[t.i..] == p[t.i..];
  }

  /** Skipping the `\n` of a `\r\n` pair does not change the tokens of the rest. */
  lemma RestAfterBreak(p: string, i: nat, j: nat)
    requires i < |p| && (j == i + 1 || (j == i + 2 && i + 1 < |p| && p[i + 1] == '\n'))
    ensures EvalLexer.Tokens(p[i + 1..]) == EvalLexer.Tokens(p[j..])
  {
    if j == i + 2 {
      assert p[i + 1..] == ['\n'] + p[i + 2..];
      EvalLexer.LexemesWhitespace('\n', p[i + 2..]);
    }
  }

  /** At the end of the program, the final flush pushes the buffer's token. */
  lemma FinalFlush(p: string, s: Scan)
    requires s.i == |p| && AllOrdinary(s.buffer)
    ensures PlainAll(FixedRun(p, s)) == PlainAll(s.tokens) + EvalLexer.Tokens(s.buffer + p[s.i..])
  {
    assert p[s.i..] == [];
    FlushFirst(s.buffer, s.ch, s.line, []);
    PlainAllConcat(s.tokens, ParseBuffer(s.buffer, s.ch, s.line));
    assert s.buffer + [] == s.buffer;
    assert EvalLexer.Lexemes([]) == [];
  }

  /** From any state whose buffer holds ordinary characters, the repaired
      loop adds the tokens of the buffer followed by the rest of the program. */
  lemma {:induction false} FixedRunTokens(p: string, s: Scan)
    requires s.i <= |p| && SimpleWhitespace(p) && AllOrdinary(s.buffer)
    ensures PlainAll(FixedRun(p, s)) == PlainAll(s.tokens) + EvalLexer.Tokens(s.buffer + p[s.i..])
    decreases |p| - s.i
  {
    if s.i == |p| {
      FinalFlush(p, s);
    } else {
      PassKeepsTokens(p, s);
      FixedRunTokens(p, FixedStep(p, s));
    }
  }

  /** The repaired scanner and the whitespace-splitting tokenizer agree on
      every program whose whitespace is spaces and line breaks. */
  lemma FixedAgreesWithSplitting(p: string)
    requires SimpleWhitespace(p)
    ensures PlainAll(FixedRun(p, Init)) == EvalLexer.Tokens(p)
  {
    FixedRunTokens(p, Init);
    assert Init.buffer + p[0..] == p;
  }

  /** The addition program of the lexer's unit test, which `ScanLexer.Run`
      never finishes, yields the expected tokens. */
  lemma FixedAddition()
    ensures PlainAll(FixedRun("(+ 1 2)", Init)) ==
      [EvalLexer.LParen, EvalLexer.Symbol("+"), EvalLexer.Integer(1), EvalLexer.Integer(2), EvalLexer.RParen]
    ensures Run("(+ 1 2)", Init) == Diverges
  {
    var p := "(+ 1 2)";
    assert SimpleWhitespace(p) by {
      forall k | 0 <= k < |p| ensures IsWhitespace(p[k]) ==> p[k] == ' ' || p[k] == '\n' || p[k] == '\r' {
      }
    }
    FixedAgreesWithSplitting(p);
    EvalLexer.AdditionExample();
    AdditionDiverges();
  }

  // ---------------------------------------------------------------------------
  // Line numbers: every parenthesis is on the line given by the line breaks before it

  /** Whether position `k` of `s` ends a line: a `\r`, or a `\n` that does
      not complete a `\r\n`. */
  predicate BreakAt(s: string, k: nat)
    requires k < |s|
  {
    s[k] == '\r' || (s[k] == '\n' && (k == 0 || s[k - 1] != '\r'))
  }

  /** The number of line breaks in `s`, a `\r\n` counting once. */
  function LineBreaks(s: string): nat {
    if s == [] then 0 else LineBreaks(s[..|s| - 1]) + (if BreakAt(s, |s| - 1) then 1 else 0)
  }

  /** The line of every parenthesis of `p[i..]`, in order: the number of line
      breaks before it in the program. */
  function ParenLines(p: string, i: nat): seq<nat>
    requires i <= |p|
    decreases |p| - i
  {
    if i == |p| then []
    else (if p[i] == '(' || p[i] == ')' then [LineBreaks(p[..i])] else []) + ParenLines(p, i + 1)
  }

  /** The lines of the parenthesis tokens of `ts`, in order. */
  function TokenParenLines(ts: seq<Token>): seq<nat> {
    if ts == [] then []
    else (if ts[0].LParen? || ts[0].RParen? then [ts[0].Line()] else []) + TokenParenLines(ts[1..])
  }

  lemma {:induction false} TokenParenLinesConcat(a: seq<Token>, b: seq<Token>)
    ensures TokenParenLines(a + b) == TokenParenLines(a) + TokenParenLines(b)
  {
    if a != [] {
      assert (a + b)[1..] == a[1..] + b;
      TokenParenLinesConcat(a[1..], b);
    } else {
      assert a + b == b;
    }
  }

  /** A flushed buffer is never a parenthesis. */
  lemma FlushHasNoParen(tokens: seq<Token>, buffer: string, ch: nat, line: nat)
    ensures TokenParenLines(tokens + ParseBuffer(buffer, ch, line)) == TokenParenLines(tokens)
  {
    var pushed := ParseBuffer(buffer, ch, line);
    TokenParenLinesConcat(tokens, pushed);
    if pushed != [] {
      assert pushed == [pushed[0]] && pushed[0] in pushed;
    }
  }

  lemma LineBreaksNext(p: string, i: nat)
    requires i < |p|
    ensures LineBreaks(p[..i + 1]) == LineBreaks(p[..i]) + (if BreakAt(p, i) then 1 else 0)
  {
    assert p[..i + 1][..i] == p[..i];
  }

  /** What the repaired loop keeps: the line counts the breaks read so far,
      and the position never lies between the `\r` and the `\n` of a `\r\n`. */
  predicate LinesCounted(p: string, s: Scan) {
    s.i <= |p| && s.line == LineBreaks(p[..s.i]) &&
    (0 < s.i < |p| ==> !(p[s.i - 1] == '\r' && p[s.i] == '\n'))
  }

  /** One pass keeps `LinesCounted`, reading one character or a whole `\r\n`. */
  lemma FixedStepLines(p: string, s: Scan)
    requires s.i < |p| && LinesCounted(p, s)
    ensures LinesCounted(p, FixedStep(p, s))
    ensures FixedStep(p, s).i == s.i + 1 || (p[s.i] == '\r' && FixedStep(p, s).i == s.i + 2 && p[s.i + 1] == '\n')
  {
    LineBreaksNext(p, s.i);
    if p[s.i] == '\r' && s.i + 1 < |p| && p[s.i + 1] == '\n' {
      LineBreaksNext(p, s.i + 1);
    }
  }

  /** Among the tokens one pass pushes, the only parenthesis is the one it
      reads, on the current line. */
  lemma FixedStepParens(p: string, s: Scan)
    requires s.i < |p|
    ensures TokenParenLines(FixedStep(p, s).tokens) ==
      TokenParenLines(s.tokens) + (if p[s.i] == '(' || p[s.i] == ')' then [s.line] else [])
  {
    var c := p[s.i];
    var flushed := s.tokens + ParseBuffer(s.buffer, s.ch, s.line);
    FlushHasNoParen(s.tokens, s.buffer, s.ch, s.line);
    if c == '(' {
      TokenParenLinesConcat(flushed, [LParen(Content((), s.ch, s.line))]);
    } else if c == ')' {
      TokenParenLinesConcat(flushed, [RParen(Content((), s.ch, s.line))]);
    }
  }

  /** `ParenLines` from a pass's start: the parenthesis it reads, if any, then
      those from where the pass ends. */
  lemma ParenLinesStep(p: string, i: nat, j: nat)
    requires i < j <= |p|
    requires j == i + 1 || (p[i] == '\r' && j == i + 2 && p[i + 1] == '\n')
    ensures ParenLines(p, i) ==
      (if p[i] == '(' || p[i] == ')' then [LineBreaks(p[..i])] else []) + ParenLines(p, j)
  {
    if j == i + 2 {
      assert ParenLines(p, i + 1) == [] + ParenLines(p, j);
    }
  }

  /** The repaired loop places every parenthesis from `s` on, with the line
      breaks before it as its line. */
  lemma {:induction false} FixedRunParenLines(p: string, s: Scan)
    requires LinesCounted(p, s)
    ensures TokenParenLines(FixedRun(p, s)) == TokenParenLines(s.tokens) + ParenLines(p, s.i)
    decreases |p| - s.i
  {
    if s.i >= |p| {
      FlushHasNoParen(s.tokens, s.buffer, s.ch, s.line);
      assert ParenLines(p, s.i) == [];
    } else {
      var t := FixedStep(p, s);
      FixedStepLines(p, s);
      FixedStepParens(p, s);
      FixedRunParenLines(p, t);
      ParenLinesStep(p, s.i, t.i);
      Splice(TokenParenLines(FixedRun(p, t)), TokenParenLines(t.tokens), TokenParenLines(s.tokens),
        if p[s.i] == '(' || p[s.i] == ')' then [s.line] else [], ParenLines(p, t.i), ParenLines(p, s.i));
    }
  }

  /** A run that is a prefix followed by the rest, where the prefix grew by
      `h` and the rest lost `h` from its front, is the old prefix followed by
      the old rest. */
  lemma Splice<T>(run: seq<T>, pre: seq<T>, pre0: seq<T>, h: seq<T>, rest: seq<T>, rest0: seq<T>)
    requires run == pre + rest && pre == pre0 + h && rest0 == h + rest
    ensures run == pre0 + rest0
  {
  }

  /** The repaired scanner's parenthesis tokens, in order, are on the lines
      the program's line breaks give them, a `\r\n` counting once. */
  lemma FixedLinesCountBreaks(p: string)
    ensures TokenParenLines(FixedRun(p, Init)) == ParenLines(p, 0)
  {
    FixedRunParenLines(p, Init);
  }

  /** `\r\n` is one line break: the parenthesis after it is on line 1, where
      `ScanLexer.Run` puts it on line 2. */
  lemma FixedCrLfCountsOnce()
    ensures FixedRun("\r\n(", Init) == [LParen(Content((), 0, 1))]
    ensures Run("\r\n(", Init) == Done([LParen(Content((), 0, 2))])
  {
    var p := "\r\n(";
    var s1 := FixedStep(p, Init);
    assert s1 == Scan(2, 0, 1, "", []);
    var s2 := FixedStep(p, s1);
    assert s2 == Scan(3, 1, 1, "", [LParen(Content((), 0, 1))]);
    assert FixedRun(p, s2) == s2.tokens;
    CrLfCountsTwice();
  }
}
