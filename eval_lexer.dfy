/** The whitespace-splitting tokenizer of risp_eval/src/lexer/implementation.rs:
    pad every parenthesis with spaces, split on whitespace, and classify each
    word as a parenthesis, an integer or a symbol. */
module EvalLexer {
  import opened Wrappers
  import opened Text

  datatype Token = Integer(n: i64) | Symbol(s: string) | LParen | RParen

  /** Declared as the error type of `tokenize`, which never produces one. */
  datatype TokenError = TokenError(ch: char)

  /** `Display for TokenError`. */
  function TokenErrorText(e: TokenError): (text: string)
    ensures |text| == 23 && text[..22] == "Unexpected character: " && text[22] == e.ch
  {
    "Unexpected character: " + [e.ch]
  }

  /** The error text names the character: two errors print alike exactly
      when they are the same error. */
  lemma TokenErrorTextDeterminesChar(a: TokenError, b: TokenError)
    ensures TokenErrorText(a) == TokenErrorText(b) <==> a == b
  {
    if TokenErrorText(a) == TokenErrorText(b) {
      assert a.ch == TokenErrorText(a)[22];
    }
  }

  // ---------------------------------------------------------------------------
  // The library calls `tokenize` is built from

  /** `str::replace` with a one-character pattern. */
  function Replace(s: string, c: char, with: string): string {
    if s == [] then [] else (if s[0] == c then with else [s[0]]) + Replace(s[1..], c, with)
  }

  /** `program.replace("(", " ( ").replace(")", " ) ")`. */
  function Pad(program: string): string {
    Replace(Replace(program, '(', " ( "), ')', " ) ")
  }

  /** Length of the longest prefix without whitespace. */
  function WordLength(s: string): (n: nat)
    ensures n <= |s|
    ensures forall i :: 0 <= i < n ==> !IsWhitespace(s[i])
    ensures n < |s| ==> IsWhitespace(s[n])
  {
    if s == [] || IsWhitespace(s[0]) then 0 else 1 + WordLength(s[1..])
  }

  /** `str::split_whitespace`: the maximal runs of non-whitespace characters,
      left to right. */
  function SplitWhitespace(s: string): seq<string>
    decreases |s|
  {
    if s == [] then []
    else if IsWhitespace(s[0]) then SplitWhitespace(s[1..])
    else
      var n := WordLength(s);
      [s[..n]] + SplitWhitespace(s[n..])
  }

  /** The classification inside the loop of `tokenize`. */
  function Classify(word: string): Token {
    if word == "(" then LParen
    else if word == ")" then RParen
    else match ParseI64(word)
      case Some(n) => Integer(n)
      case None => Symbol(word)
  }

  function ClassifyAll(words: seq<string>): (tokens: seq<Token>)
    ensures |tokens| == |words|
    ensures forall i :: 0 <= i < |words| ==> tokens[i] == Classify(words[i])
  {
    if words == [] then [] else ClassifyAll(words[..|words| - 1]) + [Classify(words[|words| - 1])]
  }

  // ---------------------------------------------------------------------------
  // Reference definition: the lexemes of a program, read straight off its characters

  /** Length of the longest prefix of ordinary characters. */
  function OrdinaryLength(s: string): (n: nat)
    ensures n <= |s| && AllOrdinary(s[..n])
    ensures n < |s| ==> !IsOrdinary(s[n])
  {
    if s == [] || !IsOrdinary(s[0]) then 0
    else
      var m := OrdinaryLength(s[1..]);
      assert s[..1 + m] == [s[0]] + s[1..][..m];
      1 + m
  }

  /** Each parenthesis on its own, each maximal run of ordinary characters as
      one lexeme, and whitespace dropped. */
  function Lexemes(s: string): seq<string>
    decreases |s|
  {
    if s == [] then []
    else if IsWhitespace(s[0]) then Lexemes(s[1..])
    else if IsParen(s[0]) then [[s[0]]] + Lexemes(s[1..])
    else
      var n := OrdinaryLength(s);
      [s[..n]] + Lexemes(s[n..])
  }

  /** What `tokenize` returns for a program, in terms of its lexemes. */
  function Tokens(program: string): seq<Token> {
    ClassifyAll(Lexemes(program))
  }

  // ---------------------------------------------------------------------------
  // The operation

  /** `tokenize`: always `Ok`, and the tokens are the classified lexemes. */
  method Tokenize(program: string) returns (r: Result<seq<Token>, TokenError>)
    ensures r.Ok?
    ensures r == Ok(Tokens(program))
  {
    var words := SplitWhitespace(Pad(program));
    var tokens: seq<Token> := [];
    for i := 0 to |words|
      invariant tokens == ClassifyAll(words[..i])
    {
      var word := words[i];
      if word == "(" {
        tokens := tokens + [LParen];
      } else if word == ")" {
        tokens := tokens + [RParen];
      } else {
        var parsed := ParseI64(word);
        if parsed.Some? {
          tokens := tokens + [Integer(parsed.value)];
        } else {
          tokens := tokens + [Symbol(word)];
        }
      }
      assert words[..i + 1][..i] == words[..i];
    }
    assert words[..|words|] == words;
    PaddedWords(program);
    r := Ok(tokens);
  }

  // ---------------------------------------------------------------------------
  // Padding and splitting produce exactly the lexemes

  lemma {:induction false} ReplaceConcat(a: string, b: string, c: char, with: string)
    ensures Replace(a + b, c, with) == Replace(a, c, with) + Replace(b, c, with)
  {
    if a != [] {
      assert (a + b)[0] == a[0];
      assert (a + b)[1..] == a[1..] + b;
      ReplaceConcat(a[1..], b, c, with);
    } else {
      assert a + b == b;
    }
  }

  lemma PadConcat(a: string, b: string)
    ensures Pad(a + b) == Pad(a) + Pad(b)
  {
    ReplaceConcat(a, b, '(', " ( ");
    ReplaceConcat(Replace(a, '(', " ( "), Replace(b, '(', " ( "), ')', " ) ");
  }

  lemma ReplaceSingle(x: char, c: char, with: string)
    ensures Replace([x], c, with) == if x == c then with else [x]
  {
    assert [x][1..] == [];
  }

  lemma PadChar(c: char)
    ensures Pad([c]) == if c == '(' then " ( " else if c == ')' then " ) " else [c]
  {
    ReplaceSingle(c, '(', " ( ");
    if c == '(' {
      assert " ( " == [' '] + (['('] + [' ']);
      ReplaceConcat([' '], ['('] + [' '], ')', " ) ");
      ReplaceConcat(['('], [' '], ')', " ) ");
      ReplaceSingle(' ', ')', " ) ");
      ReplaceSingle('(', ')', " ) ");
    } else {
      ReplaceSingle(c, ')', " ) ");
    }
  }

  lemma {:induction false} PadOrdinary(w: string)
    requires AllOrdinary(w)
    ensures Pad(w) == w
  {
    if w != [] {
      assert w == [w[0]] + w[1..];
      PadConcat([w[0]], w[1..]);
      PadChar(w[0]);
      PadOrdinary(w[1..]);
    }
  }

  /** Splitting distributes over a concatenation whose right part starts with whitespace. */
  lemma {:induction false} SplitConcat(a: string, b: string)
    requires b == [] || IsWhitespace(b[0])
    ensures SplitWhitespace(a + b) == SplitWhitespace(a) + SplitWhitespace(b)
    decreases |a|
  {
    if a == [] {
      assert a + b == b;
    } else if IsWhitespace(a[0]) {
      SplitConcat(a[1..], b);
      SplitConcatBlank(a, b);
    } else {
      SplitConcat(a[WordLength(a)..], b);
      SplitConcatWord(a, b);
    }
  }

  lemma SplitConcatBlank(a: string, b: string)
    requires a != [] && IsWhitespace(a[0])
    requires SplitWhitespace(a[1..] + b) == SplitWhitespace(a[1..]) + SplitWhitespace(b)
    ensures SplitWhitespace(a + b) == SplitWhitespace(a) + SplitWhitespace(b)
  {
    assert (a + b)[0] == a[0] && (a + b)[1..] == a[1..] + b;
  }

  lemma SplitConcatWord(a: string, b: string)
    requires a != [] && !IsWhitespace(a[0]) && (b == [] || IsWhitespace(b[0]))
    requires SplitWhitespace(a[WordLength(a)..] + b) == SplitWhitespace(a[WordLength(a)..]) + SplitWhitespace(b)
    ensures SplitWhitespace(a + b) == SplitWhitespace(a) + SplitWhitespace(b)
  {
    var n := WordLength(a);
    var w, r := a[..n], a[n..];
    SplitAt(a, b, n);
    SplitWordThen(w, r);
    assert r + b == [] || IsWhitespace((r + b)[0]) by {
      if r == [] { assert r + b == b; } else { assert (r + b)[0] == r[0]; }
    }
    SplitWordThen(w, r + b);
    ConsConcat(w, SplitWhitespace(r), SplitWhitespace(b));
  }

  lemma SplitAt<T>(a: seq<T>, b: seq<T>, n: nat)
    requires n <= |a|
    ensures a == a[..n] + a[n..] && a + b == a[..n] + (a[n..] + b)
  {
  }

  /** A word followed by whitespace or nothing splits off as the first word. */
  lemma SplitWordThen(w: string, r: string)
    requires w != [] && forall i :: 0 <= i < |w| ==> !IsWhitespace(w[i])
    requires r == [] || IsWhitespace(r[0])
    ensures SplitWhitespace(w + r) == [w] + SplitWhitespace(r)
  {
    WordLengthOfWord(w, r);
    assert (w + r)[..|w|] == w && (w + r)[|w|..] == r;
  }

  lemma {:induction false} WordLengthOfWord(w: string, r: string)
    requires forall i :: 0 <= i < |w| ==> !IsWhitespace(w[i])
    requires r == [] || IsWhitespace(r[0])
    ensures WordLength(w + r) == |w|
    decreases |w|
  {
    if w == [] {
      assert w + r == r;
    } else {
      assert (w + r)[1..] == w[1..] + r;
      WordLengthOfWord(w[1..], r);
    }
  }

  lemma {:induction false} WordLengthOrdinary(w: string)
    requires AllOrdinary(w)
    ensures WordLength(w) == |w|
  {
    if w != [] {
      assert AllOrdinary(w[1..]) by { assert forall i :: 0 <= i < |w[1..]| ==> w[1..][i] == w[i + 1]; }
      WordLengthOrdinary(w[1..]);
    }
  }

  lemma SplitWord(w: string)
    requires |w| > 0 && AllOrdinary(w)
    ensures SplitWhitespace(w) == [w]
  {
    WordLengthOrdinary(w);
    assert w[..|w|] == w;
    assert w[|w|..] == [];
  }

  /** The words of the padded program are the program's lexemes. */
  lemma {:induction false} PaddedWords(s: string)
    ensures SplitWhitespace(Pad(s)) == Lexemes(s)
    decreases |s|
  {
    if s == [] {
    } else if IsWhitespace(s[0]) {
      PaddedWords(s[1..]);
      PaddedWhitespace(s);
    } else if IsParen(s[0]) {
      PaddedWords(s[1..]);
      PaddedParen(s);
    } else {
      PaddedWords(s[OrdinaryLength(s)..]);
      PaddedWord(s);
    }
  }

  lemma PaddedWhitespace(s: string)
    requires s != [] && IsWhitespace(s[0])
    requires SplitWhitespace(Pad(s[1..])) == Lexemes(s[1..])
    ensures SplitWhitespace(Pad(s)) == Lexemes(s)
  {
    assert s == [s[0]] + s[1..];
    PadConcat([s[0]], s[1..]);
    PadChar(s[0]);
    assert Pad(s) == [s[0]] + Pad(s[1..]);
    assert Pad(s)[1..] == Pad(s[1..]);
  }

  lemma PaddedParen(s: string)
    requires s != [] && IsParen(s[0])
    requires SplitWhitespace(Pad(s[1..])) == Lexemes(s[1..])
    ensures SplitWhitespace(Pad(s)) == Lexemes(s)
  {
    PadAtParen(s);
    SplitParen(s[0], Pad(s[1..]));
    LexemesAtParen(s);
  }

  lemma PadAtParen(s: string)
    requires s != [] && IsParen(s[0])
    ensures Pad(s) == [' ', s[0]] + ([' '] + Pad(s[1..]))
  {
    assert s == [s[0]] + s[1..];
    PadConcat([s[0]], s[1..]);
    PadChar(s[0]);
  }

  lemma LexemesAtParen(s: string)
    requires s != [] && IsParen(s[0])
    ensures Lexemes(s) == [[s[0]]] + Lexemes(s[1..])
  {
  }

  /** A padded parenthesis splits off as a word of its own. */
  lemma SplitParen(c: char, x: string)
    requires IsParen(c)
    ensures SplitWhitespace([' ', c] + ([' '] + x)) == [[c]] + SplitWhitespace(x)
  {
    SplitConcat([' ', c], [' '] + x);
    SplitSpaced(c);
    assert ([' '] + x)[1..] == x;
  }

  lemma SplitSpaced(c: char)
    requires IsParen(c)
    ensures SplitWhitespace([' ', c]) == [[c]]
  {
    var one := [c];
    assert SplitWhitespace([' ', c]) == SplitWhitespace(one) by { assert [' ', c][1..] == one; }
    assert WordLength(one) == 1 by { assert one[1..] == []; }
    assert one[..1] == one && one[1..] == [];
    assert SplitWhitespace(one) == [one];
  }

  lemma PaddedWord(s: string)
    requires s != [] && IsOrdinary(s[0])
    requires SplitWhitespace(Pad(s[OrdinaryLength(s)..])) == Lexemes(s[OrdinaryLength(s)..])
    ensures SplitWhitespace(Pad(s)) == Lexemes(s)
  {
    var n := OrdinaryLength(s);
    PadAfterWord(s);
    SplitConcat(s[..n], Pad(s[n..]));
    SplitWord(s[..n]);
  }

  /** Padding leaves a leading word alone and puts whitespace (or nothing)
      right after it. */
  lemma PadAfterWord(s: string)
    requires s != [] && IsOrdinary(s[0])
    ensures var n := OrdinaryLength(s);
      && n > 0
      && Pad(s) == s[..n] + Pad(s[n..])
      && (Pad(s[n..]) == [] || IsWhitespace(Pad(s[n..])[0]))
  {
    var n := OrdinaryLength(s);
    var w, rest := s[..n], s[n..];
    assert s == w + rest;
    PadConcat(w, rest);
    PadOrdinary(w);
    if rest != [] {
      assert rest == [rest[0]] + rest[1..];
      PadConcat([rest[0]], rest[1..]);
      PadChar(rest[0]);
    }
  }

  // ---------------------------------------------------------------------------
  // Properties of the tokens

  /** Every lexeme is a lone parenthesis or a non-empty run of ordinary characters. */
  lemma {:induction false} LexemeShape(s: string)
    ensures forall w :: w in Lexemes(s) ==> w == "(" || w == ")" || (|w| > 0 && AllOrdinary(w))
    decreases |s|
  {
    if s != [] {
      if IsWhitespace(s[0]) {
        LexemeShape(s[1..]);
      } else if IsParen(s[0]) {
        LexemeShape(s[1..]);
      } else {
        LexemeShape(s[OrdinaryLength(s)..]);
      }
    }
  }

  /** A word becomes `Integer(n)` exactly when it parses as an i64 `n`;
      otherwise a non-parenthesis word becomes a `Symbol` of the whole word,
      which is never empty and holds no whitespace and no parenthesis. */
  lemma TokenClassification(program: string, i: nat)
    requires i < |Tokens(program)|
    ensures |Lexemes(program)| == |Tokens(program)|
    ensures var w, t := Lexemes(program)[i], Tokens(program)[i];
      && (t == LParen <==> w == "(")
      && (t == RParen <==> w == ")")
      && (t.Integer? <==> ParseI64(w).Some?)
      && (t.Integer? ==> ParseI64(w) == Some(t.n))
      && (t.Symbol? ==> t.s == w && |w| > 0 && AllOrdinary(w) && ParseI64(w).None?)
  {
    LexemeShape(program);
    var w := Lexemes(program)[i];
    assert w in Lexemes(program);
    if w == "(" || w == ")" { assert ParseI64(w).None?; }
  }

  /** The parentheses of a program, in order, as tokens. */
  function ParenTokens(s: string): (ts: seq<Token>)
    ensures forall t :: t in ts ==> t == LParen || t == RParen
  {
    if s == [] then []
    else (if s[0] == '(' then [LParen] else if s[0] == ')' then [RParen] else []) + ParenTokens(s[1..])
  }

  /** The parenthesis tokens of a token sequence, in order. */
  function ParensOf(ts: seq<Token>): seq<Token> {
    if ts == [] then []
    else (if ts[0] == LParen || ts[0] == RParen then [ts[0]] else []) + ParensOf(ts[1..])
  }

  lemma {:induction false} ParenTokensConcat(a: string, b: string)
    ensures ParenTokens(a + b) == ParenTokens(a) + ParenTokens(b)
  {
    if a != [] {
      assert (a + b)[0] == a[0];
      assert (a + b)[1..] == a[1..] + b;
      ParenTokensConcat(a[1..], b);
    } else {
      assert a + b == b;
    }
  }

  lemma {:induction false} ParenTokensOrdinary(w: string)
    requires AllOrdinary(w)
    ensures ParenTokens(w) == []
  {
    if w != [] { ParenTokensOrdinary(w[1..]); }
  }

  lemma {:induction false} ParensOfCons(t: Token, ts: seq<Token>)
    ensures ParensOf([t] + ts) == (if t == LParen || t == RParen then [t] else []) + ParensOf(ts)
  {
    assert ([t] + ts)[1..] == ts;
  }

  lemma ClassifyAllCons(w: string, ws: seq<string>)
    ensures ClassifyAll([w] + ws) == [Classify(w)] + ClassifyAll(ws)
  {
  }

  /** Every `(` of the program yields exactly one `LParen` and every `)`
      exactly one `RParen`, in source order, and no other token is a parenthesis. */
  lemma {:induction false} ParensInSourceOrder(s: string)
    ensures ParensOf(Tokens(s)) == ParenTokens(s)
    decreases |s|
  {
    if s == [] {
    } else if IsWhitespace(s[0]) {
      ParensInSourceOrder(s[1..]);
      assert Lexemes(s) == Lexemes(s[1..]);
    } else if IsParen(s[0]) {
      ParensInSourceOrder(s[1..]);
      ParensAtParen(s);
    } else {
      ParensInSourceOrder(s[OrdinaryLength(s)..]);
      ParensAtWord(s);
    }
  }

  lemma ParensAtParen(s: string)
    requires s != [] && IsParen(s[0])
    requires ParensOf(Tokens(s[1..])) == ParenTokens(s[1..])
    ensures ParensOf(Tokens(s)) == ParenTokens(s)
  {
    var c := s[0];
    var t := if c == '(' then LParen else RParen;
    LexemesAtParen(s);
    ClassifyAllCons([c], Lexemes(s[1..]));
    assert Classify([c]) == t;
    ParensOfCons(t, Tokens(s[1..]));
  }

  lemma ParensAtWord(s: string)
    requires s != [] && IsOrdinary(s[0])
    requires ParensOf(Tokens(s[OrdinaryLength(s)..])) == ParenTokens(s[OrdinaryLength(s)..])
    ensures ParensOf(Tokens(s)) == ParenTokens(s)
  {
    var n := OrdinaryLength(s);
    ParenTokensAtWord(s);
    TokensAtWord(s);
    ParensOfCons(Classify(s[..n]), Tokens(s[n..]));
  }

  lemma ParenTokensAtWord(s: string)
    requires s != [] && IsOrdinary(s[0])
    ensures ParenTokens(s) == ParenTokens(s[OrdinaryLength(s)..])
  {
    var n := OrdinaryLength(s);
    assert s == s[..n] + s[n..];
    ParenTokensConcat(s[..n], s[n..]);
    ParenTokensOrdinary(s[..n]);
  }

  /** A word at the front yields one token, which is not a parenthesis. */
  lemma TokensAtWord(s: string)
    requires s != [] && IsOrdinary(s[0])
    ensures Tokens(s) == [Classify(s[..OrdinaryLength(s)])] + Tokens(s[OrdinaryLength(s)..])
    ensures Classify(s[..OrdinaryLength(s)]) != LParen && Classify(s[..OrdinaryLength(s)]) != RParen
  {
    var n := OrdinaryLength(s);
    LexemesAtWord(s);
    ClassifyAllCons(s[..n], Lexemes(s[n..]));
    assert s[..n] != "(" && s[..n] != ")" by { assert IsOrdinary(s[..n][0]); }
  }

  lemma LexemesAtWord(s: string)
    requires s != [] && IsOrdinary(s[0])
    ensures Lexemes(s) == [s[..OrdinaryLength(s)]] + Lexemes(s[OrdinaryLength(s)..])
  {
  }

  function Concat(words: seq<string>): string {
    if words == [] then [] else words[0] + Concat(words[1..])
  }

  /** The program with its whitespace removed. */
  function NonWhitespace(s: string): string {
    if s == [] then [] else (if IsWhitespace(s[0]) then [] else [s[0]]) + NonWhitespace(s[1..])
  }

  lemma {:induction false} NonWhitespaceConcat(a: string, b: string)
    ensures NonWhitespace(a + b) == NonWhitespace(a) + NonWhitespace(b)
  {
    if a != [] {
      assert (a + b)[0] == a[0];
      assert (a + b)[1..] == a[1..] + b;
      NonWhitespaceConcat(a[1..], b);
    } else {
      assert a + b == b;
    }
  }

  lemma {:induction false} NonWhitespaceOrdinary(w: string)
    requires AllOrdinary(w)
    ensures NonWhitespace(w) == w
  {
    if w != [] { NonWhitespaceOrdinary(w[1..]); }
  }

  /** Whitespace yields no lexeme, and the lexemes, read left to right, spell
      out every other character of the program in order. */
  lemma {:induction false} LexemesSpellProgram(s: string)
    ensures Concat(Lexemes(s)) == NonWhitespace(s)
    decreases |s|
  {
    if s == [] {
    } else if IsWhitespace(s[0]) || IsParen(s[0]) {
      assert s == [s[0]] + s[1..];
      NonWhitespaceConcat([s[0]], s[1..]);
      LexemesSpellProgram(s[1..]);
    } else {
      var n := OrdinaryLength(s);
      assert s == s[..n] + s[n..];
      NonWhitespaceConcat(s[..n], s[n..]);
      NonWhitespaceOrdinary(s[..n]);
      LexemesSpellProgram(s[n..]);
    }
  }

  /** Lexing two texts joined where no word runs across the join: the
      second starts with whitespace or a parenthesis, or is empty. */
  lemma {:induction false} LexemesConcat(a: string, b: string)
    requires b == [] || !IsOrdinary(b[0])
    ensures Lexemes(a + b) == Lexemes(a) + Lexemes(b)
    decreases |a|
  {
    if a == [] {
      assert a + b == b;
    } else if !IsOrdinary(a[0]) {
      LexemesConcat(a[1..], b);
      LexemesConcatSeparator(a, b);
    } else {
      var n := OrdinaryLength(a);
      LexemesConcat(a[n..], b);
      LexemesConcatWord(a, b);
    }
  }

  lemma LexemesConcatSeparator(a: string, b: string)
    requires a != [] && !IsOrdinary(a[0])
    requires Lexemes(a[1..] + b) == Lexemes(a[1..]) + Lexemes(b)
    ensures Lexemes(a + b) == Lexemes(a) + Lexemes(b)
  {
    LexemesLeadingSeparator(a, b);
    LexemesSeparatorHead(a);
    ConcatAssoc(if IsWhitespace(a[0]) then [] else [[a[0]]], Lexemes(a[1..]), Lexemes(b));
  }

  /** A text that starts with a separator lexes as that separator, unless it
      is whitespace, then the rest. */
  lemma LexemesSeparatorHead(a: string)
    requires a != [] && !IsOrdinary(a[0])
    ensures Lexemes(a) == (if IsWhitespace(a[0]) then [] else [[a[0]]]) + Lexemes(a[1..])
  {
  }

  lemma ConcatAssoc<T>(p: seq<T>, x: seq<T>, y: seq<T>)
    ensures p + (x + y) == p + x + y
  {
  }

  lemma LexemesConcatWord(a: string, b: string)
    requires a != [] && IsOrdinary(a[0]) && (b == [] || !IsOrdinary(b[0]))
    requires Lexemes(a[OrdinaryLength(a)..] + b) == Lexemes(a[OrdinaryLength(a)..]) + Lexemes(b)
    ensures Lexemes(a + b) == Lexemes(a) + Lexemes(b)
  {
    var n := OrdinaryLength(a);
    LexemesLeadingWord(a, b);
    LexemesWordHead(a);
    ConsConcat(a[..n], Lexemes(a[n..]), Lexemes(b));
  }

  /** A text that starts with a word lexes as that word, then the rest. */
  lemma LexemesWordHead(a: string)
    requires a != [] && IsOrdinary(a[0])
    ensures Lexemes(a) == [a[..OrdinaryLength(a)]] + Lexemes(a[OrdinaryLength(a)..])
  {
  }

  lemma ConsConcat<T>(w: T, x: seq<T>, y: seq<T>)
    ensures [w] + (x + y) == [w] + x + y
  {
  }

  /** How `Lexemes(a + b)` starts when `a` starts with a separator. */
  lemma LexemesLeadingSeparator(a: string, b: string)
    requires a != [] && !IsOrdinary(a[0])
    ensures Lexemes(a + b) == (if IsWhitespace(a[0]) then [] else [[a[0]]]) + Lexemes(a[1..] + b)
  {
    assert (a + b)[0] == a[0] && (a + b)[1..] == a[1..] + b;
  }

  /** How `Lexemes(a + b)` starts when `a` starts with a word that `b`
      cannot extend. */
  lemma LexemesLeadingWord(a: string, b: string)
    requires a != [] && IsOrdinary(a[0]) && (b == [] || !IsOrdinary(b[0]))
    ensures Lexemes(a + b) == [a[..OrdinaryLength(a)]] + Lexemes(a[OrdinaryLength(a)..] + b)
  {
    var n := OrdinaryLength(a);
    OrdinaryLengthConcat(a, b);
    assert (a + b)[0] == a[0];
    assert (a + b)[..n] == a[..n] && (a + b)[n..] == a[n..] + b;
  }

  lemma {:induction false} OrdinaryLengthConcat(a: string, b: string)
    requires b == [] || !IsOrdinary(b[0])
    ensures OrdinaryLength(a + b) == OrdinaryLength(a)
    decreases |a|
  {
    if a == [] {
      assert a + b == b;
    } else {
      assert (a + b)[0] == a[0] && (a + b)[1..] == a[1..] + b;
      if IsOrdinary(a[0]) {
        OrdinaryLengthConcat(a[1..], b);
      }
    }
  }

  lemma ClassifyAllConcat(a: seq<string>, b: seq<string>)
    ensures ClassifyAll(a + b) == ClassifyAll(a) + ClassifyAll(b)
  {
    var x, y := ClassifyAll(a + b), ClassifyAll(a) + ClassifyAll(b);
    forall i | 0 <= i < |x|
      ensures x[i] == y[i]
    {
      if i < |a| {
        assert (a + b)[i] == a[i];
      } else {
        assert (a + b)[i] == b[i - |a|];
      }
    }
  }

  /** A text between parentheses is lexed as that text's tokens between
      the two parenthesis tokens. */
  lemma TokensBetweenParens(inner: string)
    ensures Tokens(['('] + (inner + ")")) == [LParen] + Tokens(inner) + [RParen]
  {
    LexemesBetweenParens(inner);
    ClassifyAllConcat([['(']], Lexemes(inner) + [")"]);
    ClassifyAllConcat(Lexemes(inner), [")"]);
  }

  lemma LexemesBetweenParens(inner: string)
    ensures Lexemes(['('] + (inner + ")")) == [['(']] + (Lexemes(inner) + [")"])
  {
    LexemesParen('(', inner + ")");
    LexemesClosing(inner);
  }

  lemma LexemesClosing(inner: string)
    ensures Lexemes(inner + ")") == Lexemes(inner) + [")"]
  {
    LexemesConcat(inner, ")");
    assert ")" == [')'] + [];
    LexemesParen(')', []);
  }

  /** Whitespace in front of a text adds no lexemes. */
  lemma {:induction false} LexemesAfterBlanks(pad: string, s: string)
    requires Blank(pad)
    ensures Lexemes(pad + s) == Lexemes(s)
    decreases |pad|
  {
    if pad == [] {
      assert pad + s == s;
    } else {
      assert pad + s == [pad[0]] + (pad[1..] + s);
      LexemesWhitespace(pad[0], pad[1..] + s);
      LexemesAfterBlanks(pad[1..], s);
    }
  }

  lemma LexemesWhitespace(c: char, rest: string)
    requires IsWhitespace(c)
    ensures Lexemes([c] + rest) == Lexemes(rest)
  {
    assert ([c] + rest)[1..] == rest;
  }

  lemma LexemesParen(c: char, rest: string)
    requires IsParen(c)
    ensures Lexemes([c] + rest) == [[c]] + Lexemes(rest)
  {
    assert ([c] + rest)[1..] == rest;
  }

  lemma LexemesWord(w: string, rest: string)
    requires |w| > 0 && AllOrdinary(w) && (rest == [] || !IsOrdinary(rest[0]))
    ensures Lexemes(w + rest) == [w] + Lexemes(rest)
  {
    var s := w + rest;
    assert OrdinaryLength(s) == |w| by {
      var n := OrdinaryLength(s);
    }
    assert s[..|w|] == w && s[|w|..] == rest;
  }

  lemma AdditionLexemesTail()
    ensures Lexemes(" 2)") == ["2", ")"]
  {
    LexemesParen(')', []);
    assert ")" == [')'] + [];
    LexemesWord("2", ")");
    assert "2)" == "2" + ")";
    LexemesWhitespace(' ', "2)");
    assert " 2)" == [' '] + "2)";
  }

  lemma AdditionLexemesMiddle()
    ensures Lexemes(" 1 2)") == ["1", "2", ")"]
  {
    var rest := " 2)";
    AdditionLexemesTail();
    LexemesWord("1", rest);
    assert "1 2)" == "1" + rest;
    LexemesWhitespace(' ', "1 2)");
    assert " 1 2)" == [' '] + "1 2)";
    ConsTwo("1", "2", ")");
  }

  lemma AdditionLexemesHead()
    ensures Lexemes("+ 1 2)") == ["+", "1", "2", ")"]
  {
    var rest := " 1 2)";
    AdditionLexemesMiddle();
    LexemesWord("+", rest);
    assert "+ 1 2)" == "+" + rest;
    ConsThree("+", "1", "2", ")");
  }

  lemma ConsTwo<T>(a: T, b: T, c: T)
    ensures [a] + [b, c] == [a, b, c]
  {
  }

  lemma ConsThree<T>(a: T, b: T, c: T, d: T)
    ensures [a] + [b, c, d] == [a, b, c, d]
  {
  }

  lemma AdditionLexemes()
    ensures Lexemes("(+ 1 2)") == ["(", "+", "1", "2", ")"]
  {
    var rest := "+ 1 2)";
    AdditionLexemesHead();
    LexemesParen('(', rest);
    AdditionText();
    ConsFour("(", "+", "1", "2", ")");
  }

  lemma AdditionText()
    ensures "(+ 1 2)" == ['('] + "+ 1 2)" && "(" == ['(']
  {
  }

  lemma ConsFour<T>(a: T, b: T, c: T, d: T, e: T)
    ensures [a] + [b, c, d, e] == [a, b, c, d, e]
  {
  }

  /** The addition program of the lexer's unit test. */
  lemma AdditionExample()
    ensures Tokens("(+ 1 2)") == [LParen, Symbol("+"), Integer(1), Integer(2), RParen]
  {
    AdditionLexemes();
    AdditionWords();
    ClassifyFive(["(", "+", "1", "2", ")"]);
  }

  lemma ClassifyFive(ws: seq<string>)
    requires |ws| == 5
    ensures ClassifyAll(ws) == [Classify(ws[0]), Classify(ws[1]), Classify(ws[2]), Classify(ws[3]), Classify(ws[4])]
  {
  }

  lemma AdditionWords()
    ensures Classify("(") == LParen && Classify(")") == RParen && Classify("+") == Symbol("+")
    ensures Classify("1") == Integer(1) && Classify("2") == Integer(2)
  {
    assert DigitsValue("1") == 1 by { assert "1"[..0] == ""; }
    assert DigitsValue("2") == 2 by { assert "2"[..0] == ""; }
  }
}
