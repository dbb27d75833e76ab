/** The stack-of-frames parser of risp/src/parser/implementation.rs, with its
    `ParenthesisCounter`. Tokens are read in program order; every `(` opens a
    new frame, every `)` closes the innermost frame into an `Object::List` in
    the frame below, and every other token is added to the innermost frame. At
    the end, the bottom frame's only element is the result, or `Void` when it
    does not hold exactly one. */
module StackParser {
  import opened Wrappers
  import opened Text
  import opened Objects
  import opened ScanLexer
  import opened Stacks

  /** `ParserError`: a message and the position it refers to. */
  datatype ParserError = ParserError(err: string, ch: nat, line: nat)

  const UnmatchedClosing := "Unmatched closing parenthesis"
  const UnmatchedOpening := "Unmatched opening parenthesis"

  /** `Display for ParserError`: `line:ch err`. */
  function ParserErrorText(e: ParserError): string {
    Digits(e.line) + ":" + Digits(e.ch) + " " + e.err
  }

  /** The text of an error names its position: errors with the same text are
      at the same line and column. */
  lemma ParserErrorTextDeterminesPosition(a: ParserError, b: ParserError)
    requires ParserErrorText(a) == ParserErrorText(b)
    ensures a.line == b.line && a.ch == b.ch && a.err == b.err
  {
    var show := (s: string) => s;
    assert ParserErrorText(a) == ContentText(Content(a.err, a.ch, a.line), show);
    assert ParserErrorText(b) == ContentText(Content(b.err, b.ch, b.line), show);
    ContentTextDeterminesPosition(Content(a.err, a.ch, a.line), Content(b.err, b.ch, b.line), show);
    var n := |Digits(a.line) + ":" + Digits(a.ch) + " "|;
    assert a.err == ParserErrorText(a)[n..];
  }

  // ---------------------------------------------------------------------------
  // The parenthesis counter

  /** `ParenthesisCounter::compute` on values: the open parentheses after a
      token, or the error for a `)` that closes nothing. */
  function Counted(parens: seq<Token>, t: Token): (r: Result<seq<Token>, ParserError>)
    ensures r.Err? <==> t.RParen? && parens == []
    ensures r.Err? ==> r.error == ParserError(UnmatchedClosing, t.close.ch, t.close.line)
    ensures r.Ok? && t.LParen? ==> r.value == parens + [t]
    ensures r.Ok? && t.RParen? ==> r.value == parens[..|parens| - 1]
    ensures r.Ok? && !t.LParen? && !t.RParen? ==> r.value == parens
    ensures !r.Panic?
  {
    match t
    case LParen(_) => Ok(parens + [t])
    case RParen(c) =>
      if parens == [] then Err(ParserError(UnmatchedClosing, c.ch, c.line))
      else Ok(parens[..|parens| - 1])
    case _ => Ok(parens)
  }

  predicate AllOpen(parens: seq<Token>) { forall k :: 0 <= k < |parens| ==> parens[k].LParen? }

  /** The counter only ever holds opening parentheses. */
  lemma CountedKeepsOpen(parens: seq<Token>, t: Token)
    requires AllOpen(parens) && Counted(parens, t).Ok?
    ensures AllOpen(Counted(parens, t).value)
  {
  }

  /** `last_ch_and_line` on the counter's contents. */
  function LastPosition(parens: seq<Token>): (pos: (nat, nat))
    ensures parens != [] && parens[|parens| - 1].LParen? ==>
      pos == (parens[|parens| - 1].open.ch, parens[|parens| - 1].open.line)
    ensures parens == [] ==> pos == (0, 0)
  {
    if parens == [] then (0, 0)
    else match parens[|parens| - 1]
      case LParen(c) => (c.ch, c.line)
      case _ => (0, 0)
  }

  class ParenthesisCounter {
    var parens: seq<Token>

    constructor ()
      ensures parens == []
    {
      parens := [];
    }

    /** `compute`: push an opening parenthesis, pop one for a closing one,
        and fail, leaving the counter as it was, on a closing parenthesis
        with nothing to close. */
    method Compute(token: Token) returns (r: Result<(), ParserError>)
      modifies this
      ensures Counted(old(parens), token).Ok? ==> r == Ok(()) && parens == Counted(old(parens), token).value
      ensures Counted(old(parens), token).Err? ==> r == Err(Counted(old(parens), token).error) && parens == old(parens)
    {
      match token {
        case LParen(c) =>
          parens := parens + [LParen(c)];
        case RParen(c) =>
          if parens == [] {
            return Err(ParserError(UnmatchedClosing, c.ch, c.line));
          }
          parens := parens[..|parens| - 1];
        case _ =>
      }
      return Ok(());
    }

    /** `last_ch_and_line`: the position of the innermost open parenthesis. */
    function LastChAndLine(): (pos: (nat, nat))
      reads this
      ensures AllOpen(parens) && parens != [] ==>
        pos == (parens[|parens| - 1].open.ch, parens[|parens| - 1].open.line)
    {
      LastPosition(parens)
    }

    /** `is_balanced`: no parenthesis is left open. */
    function IsBalanced(): (b: bool)
      reads this
      ensures b <==> |parens| == 0
    {
      parens == []
    }
  }

  // ---------------------------------------------------------------------------
  // Specification: one pass of the loop, and the end of `parse_list`

  /** The parser between tokens: its frames and the counter's contents, or the
      result it has already returned. */
  datatype State = Scanning(stack: seq<seq<Object>>, parens: seq<Token>) | Halted(result: Result<Object, ParserError>)

  const Init := Scanning([[]], [])

  /** Add an object to the innermost frame (`stack.last_mut()`), if there is one. */
  function Push(stack: seq<seq<Object>>, o: Object): (r: seq<seq<Object>>)
    ensures |r| == |stack|
    ensures stack != [] ==> r[..|r| - 1] == stack[..|stack| - 1] && r[|r| - 1] == stack[|stack| - 1] + [o]
  {
    if stack == [] then stack else stack[..|stack| - 1] + [stack[|stack| - 1] + [o]]
  }

  /** The well-formed scanning states: one frame more than open parentheses,
      and only opening parentheses in the counter. */
  predicate Valid(st: State) {
    st.Scanning? ==> |st.stack| == 1 + |st.parens| && AllOpen(st.parens)
  }

  /** One pass of the `while let` loop. */
  function Step(st: State, t: Token): (st': State)
    ensures Valid(st) ==> Valid(st')
    ensures Valid(st) && st.Scanning? && st'.Halted? ==>
      st'.result.Panic? || (st'.result.Err? && t.RParen? && st.parens == [])
  {
    match st
    case Halted(_) => st
    case Scanning(stack, parens) =>
      match Counted(parens, t)
      case Err(e) => Halted(Err(e))
      case Panic(cause) => Halted(Panic(cause))
      case Ok(parens') =>
        match t
        case LParen(_) => Scanning(stack + [[]], parens')
        case RParen(_) =>
          if stack == [] then Scanning(stack, parens')
          else
            var completed := stack[|stack| - 1];
            var below := stack[..|stack| - 1];
            if below == [] then Halted(Ok(List(completed)))
            else Scanning(Push(below, List(completed)), parens')
        case Integer(n) => Scanning(Push(stack, Object.Integer(n.content)), parens')
        case Symbol(s) =>
          if stack == [] then Scanning(stack, parens')
          else
            match SymbolObject<ParserError>(s.content)
            case Ok(o) => Scanning(Push(stack, o), parens')
            case Panic(cause) => Halted(Panic(cause))
            case Err(e) => Halted(Err(e))
  }

  /** The state after a sequence of tokens. */
  function Steps(st: State, ts: seq<Token>): State
    decreases |ts|
  {
    if ts == [] || st.Halted? then st else Steps(Step(st, ts[0]), ts[1..])
  }

  /** What `parse_list` returns once the tokens have run out. */
  function Finish(st: State): Result<Object, ParserError> {
    match st
    case Halted(r) => r
    case Scanning(stack, parens) =>
      if parens != [] then
        var (ch, line) := LastPosition(parens);
        Err(ParserError(UnmatchedOpening, ch, line))
      else if stack == [] then Ok(Void)
      else
        var list := stack[|stack| - 1];
        if |list| == 1 then Ok(list[0]) else Ok(Void)
  }

  /** `parse_list` on tokens in program order. */
  function Parse(ts: seq<Token>): Result<Object, ParserError> {
    Finish(Steps(Init, ts))
  }

  lemma {:induction false} StepsAppend(st: State, a: seq<Token>, b: seq<Token>)
    ensures Steps(st, a + b) == Steps(Steps(st, a), b)
    decreases |a|
  {
    if a == [] {
      assert a + b == b;
    } else if st.Halted? {
      assert Steps(st, b) == st;
    } else {
      assert (a + b)[0] == a[0] && (a + b)[1..] == a[1..] + b;
      StepsAppend(Step(st, a[0]), a[1..], b);
    }
  }

  lemma {:induction false} StepsValid(st: State, ts: seq<Token>)
    requires Valid(st)
    ensures Valid(Steps(st, ts))
    decreases |ts|
  {
    if ts != [] && st.Scanning? {
      StepsValid(Step(st, ts[0]), ts[1..]);
    }
  }

  // ---------------------------------------------------------------------------
  // The operations

  /** `parse_list`: the tokens are a `Vec` whose last element is the next token. */
  method ParseList(tokens: seq<Token>) returns (r: Result<Object, ParserError>)
    ensures r == Parse(Reverse(tokens))
  {
    var counter := new ParenthesisCounter();
    var stack: seq<seq<Object>> := [[]];
    var rest := tokens;
    ghost var goal := Steps(Init, Reverse(tokens));
    while rest != []
      invariant |stack| == 1 + |counter.parens| && AllOpen(counter.parens)
      invariant goal == Steps(Scanning(stack, counter.parens), Reverse(rest))
      decreases |rest|
    {
      var token := rest[|rest| - 1];
      ghost var st := Scanning(stack, counter.parens);
      assert Reverse(rest) == [token] + Reverse(rest[..|rest| - 1]);
      rest := rest[..|rest| - 1];
      var counted := counter.Compute(token);
      if counted.Err? {
        assert Step(st, token) == Halted(Err(counted.error));
        return Err(counted.error);
      }
      match token {
        case LParen(_) =>
          stack := stack + [[]];
        case RParen(_) =>
          // The counter held an opening parenthesis, so there are at least
          // two frames and the one below the completed list exists.
          var completed := stack[|stack| - 1];
          stack := stack[..|stack| - 1];
          stack := Push(stack, List(completed));
        case Integer(n) =>
          stack := Push(stack, Object.Integer(n.content));
        case Symbol(s) =>
          var content := s.content;
          if IsQuoted(content) {
            if |content| < 2 {
              return Panic(SlicePanic(content));
            }
            stack := Push(stack, String(content[1..|content| - 1]));
          } else {
            stack := Push(stack, Object.Symbol(content));
          }
      }
      assert Step(st, token) == Scanning(stack, counter.parens);
    }
    if !counter.IsBalanced() {
      var (ch, line) := counter.LastChAndLine();
      return Err(ParserError(UnmatchedOpening, ch, line));
    }
    var finalList := stack[|stack| - 1];
    if |finalList| == 1 {
      return Ok(finalList[0]);
    }
    return Ok(Void);
  }

  /** `from_tokens`: the tokens in program order. */
  method FromTokens(tokens: seq<Token>) returns (r: Result<Object, ParserError>)
    ensures r == Parse(tokens)
  {
    ReverseReverse(tokens);
    r := ParseList(Reverse(tokens));
  }

  // ---------------------------------------------------------------------------
  // Nesting depth, and the errors it decides

  /** How a token changes the nesting depth. */
  function Delta(t: Token): int {
    if t.LParen? then 1 else if t.RParen? then -1 else 0
  }

  /** Opening minus closing parentheses. */
  function Depth(ts: seq<Token>): int {
    if ts == [] then 0 else Depth(ts[..|ts| - 1]) + Delta(ts[|ts| - 1])
  }

  /** No prefix closes more parentheses than it opens. */
  predicate NeverNegative(ts: seq<Token>) {
    forall k :: 0 <= k <= |ts| ==> Depth(ts[..k]) >= 0
  }

  /** A symbol made of a single quote character, on which the slice panics. */
  predicate LoneQuote(t: Token) {
    t.Symbol? && IsQuoted(t.sym.content) && |t.sym.content| == 1
  }

  predicate NoLoneQuote(ts: seq<Token>) {
    forall k :: 0 <= k < |ts| ==> !LoneQuote(ts[k])
  }

  /** The index of the last opening parenthesis that raised the depth from
      `j` to `j + 1`, or -1 when there is none. */
  function LastRise(ts: seq<Token>, j: int): (r: int)
    ensures -1 <= r < |ts|
  {
    if ts == [] then -1
    else
      var n := |ts| - 1;
      if ts[n].LParen? && Depth(ts[..n]) == j then n else LastRise(ts[..n], j)
  }

  lemma PrefixOfPrefix(ts: seq<Token>, n: nat, k: nat)
    requires k <= n <= |ts|
    ensures ts[..n][..k] == ts[..k]
  {
  }

  lemma NeverNegativePrefix(ts: seq<Token>, n: nat)
    requires NeverNegative(ts) && n <= |ts|
    ensures NeverNegative(ts[..n])
  {
    forall k | 0 <= k <= n
      ensures Depth(ts[..n][..k]) >= 0
    {
      PrefixOfPrefix(ts, n, k);
    }
  }

  lemma StepsOne(st: State, t: Token)
    ensures Steps(st, [t]) == Step(st, t)
  {
    assert [t][1..] == [];
  }

  /** Without a lone quote and without a prefix that closes too much, the
      parser is still scanning after the tokens; the counter then holds one
      parenthesis per level of depth, and the one at level `j` is the last
      `(` that raised the depth from `j` to `j + 1`. */
  lemma {:induction false} Scanned(ts: seq<Token>)
    requires NeverNegative(ts) && NoLoneQuote(ts)
    ensures var st := Steps(Init, ts);
      && st.Scanning? && |st.parens| == Depth(ts)
      && forall j :: 0 <= j < |st.parens| ==> 0 <= LastRise(ts, j) && st.parens[j] == ts[LastRise(ts, j)]
  {
    if ts != [] {
      var n := |ts| - 1;
      var t := ts[n];
      NeverNegativePrefix(ts, n);
      Scanned(ts[..n]);
      assert ts == ts[..n] + [t];
      StepsAppend(Init, ts[..n], [t]);
      var st := Steps(Init, ts[..n]);
      StepsValid(Init, ts[..n]);
      StepsOne(st, t);
      assert ts[..|ts|] == ts;
      assert Depth(ts) >= 0;
      ScannedStep(st, t);
      LastRiseStep(ts);
    }
  }

  /** One token that is not a lone quote, and not a `)` with nothing open,
      keeps the parser scanning and updates the counter as `Counted` says. */
  lemma ScannedStep(st: State, t: Token)
    requires Valid(st) && st.Scanning? && !LoneQuote(t) && (t.RParen? ==> st.parens != [])
    ensures Step(st, t).Scanning? && Step(st, t).parens == Counted(st.parens, t).value
  {
  }

  /** How the last rise to each level changes with the last token. */
  lemma LastRiseStep(ts: seq<Token>)
    requires ts != []
    ensures var n := |ts| - 1;
      && Depth(ts) == Depth(ts[..n]) + Delta(ts[n])
      && (forall j :: 0 <= j < Depth(ts[..n]) ==> LastRise(ts, j) == LastRise(ts[..n], j))
      && (ts[n].LParen? ==> LastRise(ts, Depth(ts[..n])) == n)
  {
  }

  /** A `)` that closes nothing, after a prefix that is balanced so far, is
      reported at its own position. */
  lemma UnmatchedClosingAt(ts: seq<Token>, k: nat)
    requires k < |ts| && ts[k].RParen?
    requires NeverNegative(ts[..k]) && Depth(ts[..k]) == 0 && NoLoneQuote(ts[..k])
    ensures Parse(ts) == Err(ParserError(UnmatchedClosing, ts[k].close.ch, ts[k].close.line))
  {
    var pre, t, post := ts[..k], ts[k], ts[k + 1..];
    Scanned(pre);
    var st := Steps(Init, pre);
    var halted := Halted(Err(ParserError(UnmatchedClosing, t.close.ch, t.close.line)));
    assert Step(st, t) == halted;
    StepsOne(st, t);
    StepsHalted(halted, post);
    StepsCompose(st, [t], post, halted, halted);
    assert ts == pre + ([t] + post);
    StepsCompose(Init, pre, [t] + post, st, halted);
  }

  lemma StepsHalted(st: State, ts: seq<Token>)
    requires st.Halted?
    ensures Steps(st, ts) == st
  {
  }

  /** Parentheses left open are reported at the innermost one: the last `(`
      that raised the depth to its final value. */
  lemma UnmatchedOpeningAt(ts: seq<Token>)
    requires NeverNegative(ts) && NoLoneQuote(ts) && Depth(ts) > 0
    ensures var idx := LastRise(ts, Depth(ts) - 1);
      && 0 <= idx && ts[idx].LParen? && Depth(ts[..idx]) == Depth(ts) - 1
      && Parse(ts) == Err(ParserError(UnmatchedOpening, ts[idx].open.ch, ts[idx].open.line))
  {
    Scanned(ts);
    StepsValid(Init, ts);
    LastRiseShape(ts, Depth(ts) - 1);
  }

  lemma {:induction false} LastRiseShape(ts: seq<Token>, j: int)
    requires 0 <= LastRise(ts, j)
    ensures ts[LastRise(ts, j)].LParen? && Depth(ts[..LastRise(ts, j)]) == j
  {
    var n := |ts| - 1;
    if !(ts[n].LParen? && Depth(ts[..n]) == j) {
      LastRiseShape(ts[..n], j);
      PrefixOfPrefix(ts, n, LastRise(ts[..n], j));
    }
  }

  /** A sequence that never closes too much and ends at depth zero parses. */
  lemma BalancedParses(ts: seq<Token>)
    requires NeverNegative(ts) && Depth(ts) == 0 && NoLoneQuote(ts)
    ensures Parse(ts).Ok?
  {
    Scanned(ts);
  }

  /** A prefix that closes too much has a first `)` that does so. */
  lemma {:induction false} FirstDip(ts: seq<Token>) returns (k: nat)
    requires !NeverNegative(ts)
    ensures k < |ts| && ts[k].RParen? && NeverNegative(ts[..k]) && Depth(ts[..k]) == 0
  {
    var n := |ts| - 1;
    assert Depth(ts[..0]) == 0;
    if !NeverNegative(ts[..n]) {
      k := FirstDip(ts[..n]);
      PrefixOfPrefix(ts, n, k);
    } else {
      assert ts[..|ts|] == ts;
      forall m | 0 <= m <= n ensures Depth(ts[..m]) >= 0 {
        PrefixOfPrefix(ts, n, m);
      }
      k := n;
    }
  }

  /** Without lone quotes, `parse_list` fails exactly when the parentheses
      are unbalanced: some prefix closes too much, or some stay open. */
  lemma ErrorsExactlyWhenUnbalanced(ts: seq<Token>)
    requires NoLoneQuote(ts)
    ensures Parse(ts).Err? <==> !(NeverNegative(ts) && Depth(ts) == 0)
  {
    if NeverNegative(ts) {
      assert ts[..|ts|] == ts;
      if Depth(ts) == 0 {
        BalancedParses(ts);
      } else {
        UnmatchedOpeningAt(ts);
      }
    } else {
      var k := FirstDip(ts);
      UnmatchedClosingAt(ts, k);
    }
  }

  // ---------------------------------------------------------------------------
  // Round trip: the tokens of an object parse back to it

  /** Tokens that spell an object, all placed at line 0, column 0 (positions
      only matter for error messages). A string is spelled as a quote-wrapped
      symbol, which is how the scanner delivers it. */
  function TokensOf(o: Object): seq<Token>
    requires Parseable(o)
  {
    match o
    case Integer(n) => [Token.Integer(Content(n, 0, 0))]
    case Symbol(s) => [Token.Symbol(Content(s, 0, 0))]
    case String(s) => [Token.Symbol(Content("\"" + s + "\"", 0, 0))]
    case List(items) => [LParen(Content((), 0, 0))] + TokensOfItems(items) + [RParen(Content((), 0, 0))]
  }

  function TokensOfItems(items: seq<Object>): seq<Token>
    requires forall i :: 0 <= i < |items| ==> Parseable(items[i])
  {
    if items == [] then [] else TokensOf(items[0]) + TokensOfItems(items[1..])
  }

  /** Add several objects to the innermost frame. */
  function PushAll(stack: seq<seq<Object>>, items: seq<Object>): (r: seq<seq<Object>>)
    requires stack != []
    ensures |r| == |stack| && r[..|r| - 1] == stack[..|stack| - 1] && r[|r| - 1] == stack[|stack| - 1] + items
  {
    stack[..|stack| - 1] + [stack[|stack| - 1] + items]
  }

  /** Reading the tokens of an object adds it to the innermost frame and leaves
      the counter as it was. */
  lemma {:induction false} StepsObject(o: Object, stack: seq<seq<Object>>, parens: seq<Token>)
    requires Parseable(o) && stack != []
    ensures Steps(Scanning(stack, parens), TokensOf(o)) == Scanning(Push(stack, o), parens)
    decreases o, 1
  {
    var st := Scanning(stack, parens);
    match o
    case Integer(n) =>
      StepsOne(st, Token.Integer(Content(n, 0, 0)));
    case Symbol(s) =>
      StepsOne(st, Token.Symbol(Content(s, 0, 0)));
    case String(s) =>
      var q := "\"" + s + "\"";
      assert IsQuoted(q) && q[1..|q| - 1] == s;
      StepsOne(st, Token.Symbol(Content(q, 0, 0)));
    case List(items) =>
      StepsList(o, stack, parens);
  }

  /** A list: its `(` opens a frame, its elements fill it, and its `)` adds
      the list to the frame below. */
  lemma {:induction false} StepsList(o: Object, stack: seq<seq<Object>>, parens: seq<Token>)
    requires o.List? && Parseable(o) && stack != []
    ensures Steps(Scanning(stack, parens), TokensOf(o)) == Scanning(Push(stack, o), parens)
    decreases o, 0, |o.items| + 1
  {
    var st := Scanning(stack, parens);
    var open := LParen(Content((), 0, 0));
    var close := RParen(Content((), 0, 0));
    StepsOne(st, open);
    StepsItems(o, o.items, stack + [[]], parens + [open]);
    var filled := Scanning(PushAll(stack + [[]], o.items), parens + [open]);
    assert (stack + [[]])[..|stack|] == stack && [] + o.items == o.items;
    assert PushAll(stack + [[]], o.items) == stack + [o.items];
    StepsOne(filled, close);
    assert (parens + [open])[..|parens|] == parens;
    assert Step(filled, close) == Scanning(Push(stack, o), parens);
    StepsCompose(st, [open], TokensOfItems(o.items), Scanning(stack + [[]], parens + [open]), filled);
    StepsCompose(st, [open] + TokensOfItems(o.items), [close], filled, Scanning(Push(stack, o), parens));
  }

  /** Reading the tokens of some trailing elements of a list adds them to the
      innermost frame, in order. */
  lemma {:induction false} StepsItems(o: Object, items: seq<Object>, stack: seq<seq<Object>>, parens: seq<Token>)
    requires o.List? && Parseable(o) && stack != []
    requires |items| <= |o.items| && items == o.items[|o.items| - |items|..]
    ensures Steps(Scanning(stack, parens), TokensOfItems(items)) == Scanning(PushAll(stack, items), parens)
    decreases o, 0, |items|
  {
    if items == [] {
      assert stack[|stack| - 1] + [] == stack[|stack| - 1];
      assert stack[..|stack| - 1] + [stack[|stack| - 1]] == stack;
      assert Steps(Scanning(stack, parens), []) == Scanning(stack, parens);
    } else {
      var x, tail := items[0], items[1..];
      TrailingElements(o, items);
      StepsObject(x, stack, parens);
      StepsItems(o, tail, Push(stack, x), parens);
      StepsCompose(Scanning(stack, parens), TokensOf(x), TokensOfItems(tail),
        Scanning(Push(stack, x), parens), Scanning(PushAll(Push(stack, x), tail), parens));
      PushThenPushAll(stack, x, tail);
      assert [x] + tail == items;
    }
  }

  /** The first of some trailing elements of a list is smaller than the list,
      and the others are trailing elements too. */
  lemma TrailingElements(o: Object, items: seq<Object>)
    requires o.List? && items != [] && |items| <= |o.items| && items == o.items[|o.items| - |items|..]
    ensures items[0] < o && items[1..] == o.items[|o.items| - |items[1..]|..]
  {
    assert items[0] == o.items[|o.items| - |items|];
  }

  lemma StepsCompose(st: State, a: seq<Token>, b: seq<Token>, mid: State, last: State)
    requires Steps(st, a) == mid && Steps(mid, b) == last
    ensures Steps(st, a + b) == last
  {
    StepsAppend(st, a, b);
  }

  lemma PushThenPushAll(stack: seq<seq<Object>>, x: Object, items: seq<Object>)
    requires stack != []
    ensures PushAll(Push(stack, x), items) == PushAll(stack, [x] + items)
  {
    assert stack[|stack| - 1] + [x] + items == stack[|stack| - 1] + ([x] + items);
  }

  /** `from_tokens` on the tokens of a sequence of top-level objects: exactly
      one object is returned as it is, any other number gives `Void`. */
  lemma RoundTrip(xs: seq<Object>)
    requires forall i :: 0 <= i < |xs| ==> Parseable(xs[i])
    ensures Parse(TokensOfItems(xs)) == if |xs| == 1 then Ok(xs[0]) else Ok(Void)
  {
    StepsItems(List(xs), xs, [[]], []);
  }

  /** In particular a list reads back as itself. */
  lemma ListRoundTrip(o: Object)
    requires o.List? && Parseable(o)
    ensures Parse(TokensOf(o)) == Ok(o)
  {
    assert TokensOfItems([o]) == TokensOf(o);
    RoundTrip([o]);
  }
}
