/** The character-scanning tokenizer of risp/src/lexer/implementation.rs,
    which records the column (`ch`) and line of every token.

    Its loop peeks at the next character and consumes it in every branch but
    one: an ordinary character (anything but a parenthesis, a space, `\n` or
    `\r`) is appended to the buffer and, unless the column equals the program's
    byte length minus one, the loop comes round to the same character again
    with the same column. It never leaves that character; only the buffer
    grows, one character a pass, until the process fails to allocate it.
    `Run` reports that as `Diverges`, and `OrdinaryCharNeverAdvances` shows
    that the loop state then repeats. */
module ScanLexer {
  import opened Wrappers
  import opened Text

  /** `Content<T>`: a token's payload and its position. */
  datatype Content<T> = Content(content: T, ch: nat, line: nat)

  datatype Token =
    | Integer(num: Content<i64>)
    | Symbol(sym: Content<string>)
    | LParen(open: Content<()>)
    | RParen(close: Content<()>)
  {
    /** The column a token was read at. */
    function Ch(): nat {
      match this
      case Integer(c) => c.ch
      case Symbol(c) => c.ch
      case LParen(c) => c.ch
      case RParen(c) => c.ch
    }

    /** The line a token was read at. */
    function Line(): nat {
      match this
      case Integer(c) => c.line
      case Symbol(c) => c.line
      case LParen(c) => c.line
      case RParen(c) => c.line
    }
  }

  /** `PartialEq for Content`: positions are ignored. */
  predicate ContentEq<T(==)>(a: Content<T>, b: Content<T>) {
    a.content == b.content
  }

  /** The derived `PartialEq for Token`, built on `ContentEq`. */
  predicate TokenEq(a: Token, b: Token) {
    match (a, b)
    case (Integer(x), Integer(y)) => ContentEq(x, y)
    case (Symbol(x), Symbol(y)) => ContentEq(x, y)
    case (LParen(x), LParen(y)) => ContentEq(x, y)
    case (RParen(x), RParen(y)) => ContentEq(x, y)
    case _ => false
  }

  /** A token with its position reset. */
  function Unplaced(t: Token): Token {
    match t
    case Integer(c) => Integer(Content(c.content, 0, 0))
    case Symbol(c) => Symbol(Content(c.content, 0, 0))
    case LParen(c) => LParen(Content((), 0, 0))
    case RParen(c) => RParen(Content((), 0, 0))
  }

  /** Token equality is equality once positions are forgotten; so it is an
      equivalence, and a token equals every copy of it at another position. */
  lemma TokenEqIgnoresPosition(a: Token, b: Token)
    ensures TokenEq(a, b) <==> Unplaced(a) == Unplaced(b)
  {
    match a
    case Integer(x) =>
    case Symbol(x) =>
    case LParen(x) =>
      if b.LParen? { var u: () := x.content; var v: () := b.open.content; assert u == v; }
    case RParen(x) =>
      if b.RParen? { var u: () := x.content; var v: () := b.close.content; assert u == v; }
  }

  /** `Display for Content<T>`: `line:ch content`, given how `T` displays. */
  function ContentText<T>(c: Content<T>, show: T -> string): string {
    Digits(c.line) + ":" + Digits(c.ch) + " " + show(c.content)
  }

  lemma {:induction false} DigitsInjective(m: nat, n: nat)
    requires Digits(m) == Digits(n)
    ensures m == n
  {
    DigitsValueOfDigits(m);
    DigitsValueOfDigits(n);
  }

  /** The index of the first occurrence of `c` in `s`, or `|s|`. */
  function IndexOf(s: string, c: char): nat {
    if s == [] then 0 else if s[0] == c then 0 else 1 + IndexOf(s[1..], c)
  }

  lemma {:induction false} IndexOfSeparator(x: string, y: string, c: char)
    requires c !in x
    ensures IndexOf(x + [c] + y, c) == |x|
  {
    if x != [] {
      assert (x + [c] + y)[1..] == x[1..] + [c] + y;
      IndexOfSeparator(x[1..], y, c);
    }
  }

  /** Two texts split at their first occurrence of a character agree on the
      part before it. */
  lemma SplitAtFirst(x: string, y: string, x': string, y': string, sep: char)
    requires sep !in x && sep !in x'
    requires x + [sep] + y == x' + [sep] + y'
    ensures x == x'
  {
    IndexOfSeparator(x, y, sep);
    IndexOfSeparator(x', y', sep);
    var s := x + [sep] + y;
    assert x == s[..|x|] == x';
  }

  lemma DigitsHaveNoSeparators(m: nat)
    ensures ':' !in Digits(m) && ' ' !in Digits(m)
  {
  }

  /** The displayed text of a `Content` determines its position. */
  lemma ContentTextDeterminesPosition<T>(a: Content<T>, b: Content<T>, show: T -> string)
    requires ContentText(a, show) == ContentText(b, show)
    ensures a.line == b.line && a.ch == b.ch
  {
    DigitsHaveNoSeparators(a.line);
    DigitsHaveNoSeparators(b.line);
    DigitsHaveNoSeparators(a.ch);
    DigitsHaveNoSeparators(b.ch);
    var ya := Digits(a.ch) + " " + show(a.content);
    var yb := Digits(b.ch) + " " + show(b.content);
    assert ContentText(a, show) == Digits(a.line) + [':'] + ya;
    assert ContentText(b, show) == Digits(b.line) + [':'] + yb;
    SplitAtFirst(Digits(a.line), ya, Digits(b.line), yb, ':');
    DigitsInjective(a.line, b.line);
    assert ya == Digits(a.ch) + [' '] + show(a.content);
    assert yb == Digits(b.ch) + [' '] + show(b.content);
    assert Digits(a.line) + [':'] + ya == Digits(a.line) + [':'] + yb;
    assert ya == yb by {
      assert ya == (Digits(a.line) + [':'] + ya)[|Digits(a.line)| + 1..];
      assert yb == (Digits(a.line) + [':'] + yb)[|Digits(a.line)| + 1..];
    }
    SplitAtFirst(Digits(a.ch), show(a.content), Digits(b.ch), show(b.content), ' ');
    DigitsInjective(a.ch, b.ch);
  }

  // ---------------------------------------------------------------------------
  // The loop state and one pass of the loop body

  /** The characters the loop consumes one at a time. */
  predicate IsLayout(c: char) { c == '(' || c == ')' || c == ' ' || c == '\n' || c == '\r' }

  predicate IsBreak(c: char) { c == '\n' || c == '\r' }

  /** `parse_buffer`: the token pushed for a buffer at a position, if any. */
  function ParseBuffer(buffer: string, ch: nat, line: nat): (pushed: seq<Token>)
    ensures buffer == [] <==> pushed == []
    ensures |pushed| <= 1
    ensures forall t :: t in pushed ==> t.Ch() == ch && t.Line() == line
    ensures forall t :: t in pushed ==> (t.Integer? <==> ParseI64(buffer).Some?)
    ensures forall t :: t in pushed ==> (t.Integer? ==> ParseI64(buffer) == Some(t.num.content))
    ensures forall t :: t in pushed ==> (t.Symbol? ==> t.sym.content == buffer)
    ensures forall t :: t in pushed ==> t.Integer? || t.Symbol?
    ensures buffer != [] && ParseI64(buffer).None? ==> pushed == [Symbol(Content(buffer, ch, line))]
  {
    if buffer == [] then []
    else match ParseI64(buffer)
      case Some(n) => [Integer(Content(n, ch, line))]
      case None => [Symbol(Content(buffer, ch, line))]
  }

  /** The loop's variables: the position in the character stream, the
      column, the line, the buffer and the tokens pushed so far. */
  datatype Scan = Scan(i: nat, ch: nat, line: nat, buffer: string, tokens: seq<Token>)

  const Init := Scan(0, 0, 0, "", [])

  /** Whether the pass at `s` takes the `break` of the ordinary-character arm. */
  predicate Breaks(p: string, s: Scan) {
    s.i < |p| && !IsLayout(p[s.i]) && s.ch == Utf8Len(p) - 1
  }

  /** One pass of the loop body that does not break (once the stream has
      ended there is no pass, and nothing changes). The `\r` arm peeks at the
      character it has not yet consumed, which is the `\r` itself. */
  function Step(p: string, s: Scan): Scan {
    if s.i >= |p| then s
    else
    var c := p[s.i];
    if c == '(' then
      Scan(s.i + 1, s.ch + 1, s.line, s.buffer, s.tokens + [LParen(Content((), s.ch, s.line))])
    else if c == ')' then
      Scan(s.i + 1, s.ch + 1, s.line, s.buffer, s.tokens + [RParen(Content((), s.ch, s.line))])
    else if c == ' ' then
      Scan(s.i + 1, s.ch + 1, s.line, "", s.tokens + ParseBuffer(s.buffer, s.ch, s.line))
    else if c == '\n' then
      Scan(s.i + 1, 0, s.line + 1, "", s.tokens + ParseBuffer(s.buffer, s.ch, s.line))
    else if c == '\r' then
      var i := if p[s.i] == '\n' then s.i + 1 else s.i;
      Scan(i + 1, 0, s.line + 1, "", s.tokens + ParseBuffer(s.buffer, s.ch, s.line))
    else
      Scan(s.i, s.ch, s.line, s.buffer + [c], s.tokens)
  }

  /** How a run of `tokenize` ends. `Diverges` stands for a loop that never
      leaves a character; the buffer it keeps growing ends the process once
      an allocation fails, which the model does not follow. */
  datatype Outcome = Done(tokens: seq<Token>) | Diverges

  /** The loop from state `s` to its end: the tokens once the stream is
      exhausted or the loop breaks, and `Diverges` when a pass leaves the
      position where it was. */
  function Run(p: string, s: Scan): Outcome
    decreases |p| - s.i
  {
    if s.i >= |p| then Done(s.tokens)
    else if Breaks(p, s) then Done(s.tokens + [Symbol(Content(s.buffer + [p[s.i]], s.ch, s.line))])
    else
      var t := Step(p, s);
      if t.i <= s.i then Diverges else Run(p, t)
  }

  /** Repeated passes of the loop body. */
  function Iterate(p: string, s: Scan, k: nat): Scan {
    if k == 0 then s else Step(p, Iterate(p, s, k - 1))
  }

  /** When a pass does not break at an ordinary character, no number of
      further passes moves the position, changes the column or line, pushes
      a token or breaks: the loop only grows its buffer, until an allocation
      fails. */
  lemma {:induction false} OrdinaryCharNeverAdvances(p: string, s: Scan, k: nat)
    requires s.i < |p| && !IsLayout(p[s.i]) && !Breaks(p, s)
    ensures forall m: nat :: m <= k ==> Iterate(p, s, m).i == s.i
    ensures var t := Iterate(p, s, k);
      && t.ch == s.ch && t.line == s.line && t.tokens == s.tokens
      && !Breaks(p, t)
      && t.buffer == s.buffer + seq(k, _ => p[s.i])
  {
    if k > 0 {
      OrdinaryCharNeverAdvances(p, s, k - 1);
      var t := Iterate(p, s, k - 1);
      assert Iterate(p, s, k) == Step(p, t);
      assert s.buffer + seq(k, _ => p[s.i]) == s.buffer + seq(k - 1, _ => p[s.i]) + [p[s.i]];
    } else {
      assert s.buffer + seq(0, _ => p[s.i]) == s.buffer;
    }
  }

  // ---------------------------------------------------------------------------
  // The operation

  /** `tokenize`. */
  method Tokenize(program: string) returns (r: Outcome)
    ensures r == Run(program, Init)
  {
    var tokens: seq<Token> := [];
    var line: nat := 0;
    var ch: nat := 0;
    var buffer: string := "";
    var i: int := 0;
    var len := Utf8Len(program);
    while i < |program|
      invariant 0 <= i <= |program|
      invariant Run(program, Scan(i, ch, line, buffer, tokens)) == Run(program, Init)
      decreases |program| - i
    {
      ghost var s := Scan(i, ch, line, buffer, tokens);
      var current := program[i];
      if current == '(' {
        tokens := tokens + [LParen(Content((), ch, line))];
        ch := ch + 1;
        i := i + 1;
      } else if current == ')' {
        tokens := tokens + [RParen(Content((), ch, line))];
        ch := ch + 1;
        i := i + 1;
      } else if current == ' ' {
        tokens := tokens + ParseBuffer(buffer, ch, line);
        buffer := "";
        ch := ch + 1;
        i := i + 1;
      } else if current == '\n' {
        tokens := tokens + ParseBuffer(buffer, ch, line);
        buffer := "";
        line := line + 1;
        ch := 0;
        i := i + 1;
      } else if current == '\r' {
        if program[i] == '\n' {
          i := i + 1;
        }
        tokens := tokens + ParseBuffer(buffer, ch, line);
        buffer := "";
        line := line + 1;
        ch := 0;
        i := i + 1;
      } else {
        buffer := buffer + [current];
        if ch == len - 1 {
          tokens := tokens + [Symbol(Content(buffer, ch, line))];
          return Done(tokens);
        }
        // The next pass would peek at the same character with the same column.
        return Diverges;
      }
      assert Scan(i, ch, line, buffer, tokens) == Step(program, s);
    }
    return Done(tokens);
  }

  // ---------------------------------------------------------------------------
  // What a run from the start produces

  /** The column and line the loop has reached after consuming `p[..i]`. */
  function Column(p: string, i: nat): nat
    requires i <= |p|
  {
    if i == 0 then 0 else if IsBreak(p[i - 1]) then 0 else Column(p, i - 1) + 1
  }

  function Line(p: string, i: nat): nat
    requires i <= |p|
  {
    if i == 0 then 0 else Line(p, i - 1) + (if IsBreak(p[i - 1]) then 1 else 0)
  }

  /** The parenthesis tokens of `p[..i]`, each at the column and line where it stands. */
  function LayoutTokens(p: string, i: nat): (ts: seq<Token>)
    requires i <= |p|
    ensures forall t :: t in ts ==> t.LParen? || t.RParen?
  {
    if i == 0 then []
    else
      LayoutTokens(p, i - 1) +
      (if p[i - 1] == '(' then [LParen(Content((), Column(p, i - 1), Line(p, i - 1)))]
       else if p[i - 1] == ')' then [RParen(Content((), Column(p, i - 1), Line(p, i - 1)))]
       else [])
  }

  /** The loop state after consuming a prefix of layout characters. */
  function Reached(p: string, i: nat): Scan
    requires i <= |p|
  {
    Scan(i, Column(p, i), Line(p, i), "", LayoutTokens(p, i))
  }

  predicate AllLayout(s: string) { forall k :: 0 <= k < |s| ==> IsLayout(s[k]) }

  /** The index of the first ordinary character, or `|p|` when there is none. */
  function FirstOrdinary(p: string): (j: nat)
    ensures j <= |p| && AllLayout(p[..j])
    ensures j < |p| ==> !IsLayout(p[j])
  {
    if p == [] || !IsLayout(p[0]) then 0
    else
      var j := FirstOrdinary(p[1..]);
      assert p[..1 + j] == [p[0]] + p[1..][..j];
      1 + j
  }

  lemma {:induction false} ReachedByLayout(p: string, i: nat)
    requires i <= |p| && AllLayout(p[..i])
    ensures Run(p, Init) == Run(p, Reached(p, i))
  {
    if i > 0 {
      assert AllLayout(p[..i - 1]) by { assert forall k :: 0 <= k < i - 1 ==> p[..i - 1][k] == p[..i][k]; }
      ReachedByLayout(p, i - 1);
      var s := Reached(p, i - 1);
      assert IsLayout(p[i - 1]) by { assert p[..i][i - 1] == p[i - 1]; }
      assert Step(p, s) == Reached(p, i);
    }
  }

  predicate NoBreak(s: string) { forall k :: 0 <= k < |s| ==> !IsBreak(s[k]) }

  lemma {:induction false} ColumnBound(p: string, i: nat)
    requires i <= |p|
    ensures Column(p, i) <= i
    ensures Column(p, i) == i <==> NoBreak(p[..i])
    ensures NoBreak(p[..i]) ==> Line(p, i) == 0
  {
    if i > 0 {
      ColumnBound(p, i - 1);
      assert p[..i] == p[..i - 1] + [p[i - 1]];
      if !NoBreak(p[..i - 1]) {
        var k :| 0 <= k < i - 1 && IsBreak(p[..i - 1][k]);
        assert p[..i][k] == p[..i - 1][k];
      }
    }
  }

  lemma {:induction false} Utf8LenConcat(a: string, b: string)
    ensures Utf8Len(a + b) == Utf8Len(a) + Utf8Len(b)
    decreases |b|
  {
    if b == [] {
      assert a + b == a;
    } else {
      assert (a + b)[..|a + b| - 1] == a + b[..|b| - 1];
      Utf8LenConcat(a, b[..|b| - 1]);
    }
  }

  lemma {:induction false} Utf8LenLayout(s: string)
    requires AllLayout(s)
    ensures Utf8Len(s) == |s|
  {
    if s != [] {
      assert AllLayout(s[..|s| - 1]) by { assert forall k :: 0 <= k < |s| - 1 ==> s[..|s| - 1][k] == s[k]; }
      Utf8LenLayout(s[..|s| - 1]);
    }
  }

  /** At the first ordinary character `j`, the column equals the byte length
      minus one exactly when that character is the last one, no line break
      comes before it, and it is a one-byte (ASCII) character. */
  lemma BreakCondition(p: string, j: nat)
    requires j < |p| && AllLayout(p[..j])
    ensures Column(p, j) == Utf8Len(p) - 1 <==>
      j == |p| - 1 && NoBreak(p[..j]) && (p[j] as int) < 0x80
  {
    ColumnBound(p, j);
    Utf8LenAround(p, j);
    Utf8LenAtLeastLength(p[j + 1..]);
    if Utf8Len(p[j + 1..]) == 0 {
      assert |p[j + 1..]| == 0;
    }
  }

  /** The byte length of a program whose first `j` characters are layout
      characters, split at `j`. */
  lemma Utf8LenAround(p: string, j: nat)
    requires j < |p| && AllLayout(p[..j])
    ensures Utf8Len(p) == j + Utf8Width(p[j]) + Utf8Len(p[j + 1..])
  {
    assert p == p[..j] + ([p[j]] + p[j + 1..]);
    Utf8LenConcat(p[..j], [p[j]] + p[j + 1..]);
    Utf8LenConcat([p[j]], p[j + 1..]);
    Utf8LenLayout(p[..j]);
    assert Utf8Len([p[j]]) == Utf8Width(p[j]) by { assert [p[j]][..0] == []; }
  }

  /** The whole behaviour of `tokenize`. With `j` the first ordinary
      character: a program of layout characters only yields its parenthesis
      tokens; a program whose only ordinary character is its last one, a
      one-byte character on the first line, yields those tokens and then that
      character as a symbol; every other program makes the loop stay on its
      first ordinary character (`Diverges`). */
  lemma TokenizeOutcome(p: string)
    ensures var j := FirstOrdinary(p);
      Run(p, Init) ==
        if j == |p| then Done(LayoutTokens(p, |p|))
        else if j == |p| - 1 && NoBreak(p[..j]) && (p[j] as int) < 0x80 then
          Done(LayoutTokens(p, j) + [Symbol(Content([p[j]], j, 0))])
        else Diverges
  {
    var j := FirstOrdinary(p);
    ReachedByLayout(p, j);
    if j < |p| {
      BreakCondition(p, j);
      ColumnBound(p, j);
      assert [] + [p[j]] == [p[j]];
    } else {
      assert p[..j] == p;
    }
  }

  /** A run that ends has pushed no integer token and at most one symbol:
      `parse_buffer` only ever sees an empty buffer. */
  lemma NoIntegersWhenDone(p: string)
    requires Run(p, Init).Done?
    ensures forall t :: t in Run(p, Init).tokens ==> !t.Integer?
    ensures forall k :: 0 <= k < |Run(p, Init).tokens| - 1 ==> Run(p, Init).tokens[k].LParen? || Run(p, Init).tokens[k].RParen?
  {
    TokenizeOutcome(p);
  }

  /** The addition program of the lexer's unit test never finishes. */
  lemma AdditionDiverges()
    ensures Run("(+ 1 2)", Init) == Diverges
  {
    TokenizeOutcome("(+ 1 2)");
    assert FirstOrdinary("(+ 1 2)") == 1 by {
      assert "(+ 1 2)"[1..] == "+ 1 2)";
    }
  }

  /** `\r\n` counts as two line breaks: the parenthesis after it is on line 2. */
  lemma CrLfCountsTwice()
    ensures Run("\r\n(", Init) == Done([LParen(Content((), 0, 2))])
  {
    var p := "\r\n(";
    assert |p| == 3 && p[0] == '\r' && p[1] == '\n' && p[2] == '(';
    var s1 := Scan(1, 0, 1, "", []);
    var s2 := Scan(2, 0, 2, "", []);
    var s3 := Scan(3, 1, 2, "", [LParen(Content((), 0, 2))]);
    assert Step(p, Init) == s1;
    assert Step(p, s1) == s2;
    assert Step(p, s2) == s3;
    assert Run(p, s2) == Run(p, s3) == Done(s3.tokens);
    assert Run(p, Init) == Run(p, s1) == Run(p, s2);
  }
}
