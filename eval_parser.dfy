/** The recursive-descent parser of risp_eval/src/parser/implementation.rs:
    `from_tokens` reverses the tokens into a stack whose top is the first
    token, and `_parse_list` pops an opening parenthesis, then elements, until
    a closing parenthesis or the end of the stack. */
module EvalParser {
  import opened Wrappers
  import opened Text
  import opened Objects
  import opened EvalLexer
  import opened Stacks

  /** `ParserError`, whose only message here is "Did not find enough tokens". */
  datatype ParserError = ParserError(err: string)

  const NotEnoughTokens := "Did not find enough tokens"

  /** `Display for ParserError`. */
  function ParserErrorText(e: ParserError): (text: string)
    ensures |text| == 15 + |e.err|
    ensures text[..15] == "[ParserError]: " && text[15..] == e.err
  {
    "[ParserError]: " + e.err
  }

  /** The error text carries the whole message: two errors print alike
      exactly when they are the same error. */
  lemma ParserErrorTextDeterminesError(a: ParserError, b: ParserError)
    ensures ParserErrorText(a) == ParserErrorText(b) <==> a == b
  {
    if ParserErrorText(a) == ParserErrorText(b) {
      assert a.err == ParserErrorText(a)[15..];
    }
  }

  /** What a parse returns: the result, and the tokens it did not consume, in
      program order. */
  type Parse = (Result<Object, ParserError>, seq<Token>)

  // ---------------------------------------------------------------------------
  // Specification: the parse over the tokens in program order

  /** A list: an opening parenthesis, then its elements. Anything else as the
      first token is an error. The remainder is always a proper suffix of the
      input, unless the input is empty; and the only error is a missing
      opening parenthesis at the front. */
  function ParseForm(ts: seq<Token>): (p: Parse)
    ensures |p.1| <= |ts| && p.1 == ts[|ts| - |p.1|..]
    ensures ts != [] ==> |p.1| < |ts|
    ensures p.0.Err? <==> ts == [] || ts[0] != LParen
    ensures p.0.Err? ==> p.0.error == ParserError(NotEnoughTokens)
    ensures p.0.Ok? ==> p.0.value.List?
    decreases |ts|, 0
  {
    if ts == [] then (Err(ParserError(NotEnoughTokens)), [])
    else if ts[0] != LParen then (Err(ParserError(NotEnoughTokens)), ts[1..])
    else ParseItems(ts[1..], [])
  }

  /** The elements of a list after `acc`, up to and including its closing
      parenthesis, or to the end of the tokens when it is missing. */
  function ParseItems(ts: seq<Token>, acc: seq<Object>): (p: Parse)
    ensures |p.1| <= |ts|
    ensures p.1 == ts[|ts| - |p.1|..]
    ensures !p.0.Err?
    ensures p.0.Ok? ==> p.0.value.List? && |p.0.value.items| >= |acc| && p.0.value.items[..|acc|] == acc
    decreases |ts|, 1
  {
    if ts == [] then (Ok(List(acc)), [])
    else match ts[0]
      case RParen => (Ok(List(acc)), ts[1..])
      case Integer(n) => ParseNext(ts, ts[1..], acc, Object.Integer(n))
      case Symbol(s) =>
        (match SymbolObject<ParserError>(s)
         case Ok(o) => ParseNext(ts, ts[1..], acc, o)
         case Panic(cause) => (Panic(cause), ts[1..])
         case Err(e) => (Err(e), ts[1..]))
      case LParen =>
        var (r, rest) := ParseForm(ts);
        if r.Ok? then ParseNext(ts, rest, acc, r.value) else (r, rest)
  }

  /** The elements after `acc + [x]`, read from `rest`, a proper suffix of `ts`. */
  function ParseNext(ts: seq<Token>, rest: seq<Token>, acc: seq<Object>, x: Object): (p: Parse)
    requires |rest| < |ts| && rest == ts[|ts| - |rest|..]
    ensures |p.1| <= |ts|
    ensures p.1 == ts[|ts| - |p.1|..]
    ensures !p.0.Err?
    ensures p.0.Ok? ==> p.0.value.List? && |p.0.value.items| >= |acc| && p.0.value.items[..|acc|] == acc
    decreases |ts|, 0
  {
    var p := ParseItems(rest, acc + [x]);
    SuffixOfSuffix(ts, rest, p.1);
    if p.0.Ok? then PrefixOfExtended(p.0.value.items, acc, x); p else p
  }

  lemma SuffixOfSuffix(a: seq<Token>, b: seq<Token>, c: seq<Token>)
    requires |b| <= |a| && b == a[|a| - |b|..]
    requires |c| <= |b| && c == b[|b| - |c|..]
    ensures c == a[|a| - |c|..]
  {
    assert a[|a| - |b|..][|b| - |c|..] == a[|a| - |c|..];
  }

  lemma PrefixOfExtended(items: seq<Object>, acc: seq<Object>, x: Object)
    requires |items| >= |acc| + 1 && items[..|acc| + 1] == acc + [x]
    ensures items[..|acc|] == acc
  {
    assert items[..|acc|] == items[..|acc| + 1][..|acc|];
  }

  // ---------------------------------------------------------------------------
  // The operations

  /** `_parse_list`: the stack is a `Vec` whose last element is the next token. */
  method ParseList(stack: seq<Token>) returns (r: Result<Object, ParserError>, rest: seq<Token>)
    ensures (r, Reverse(rest)) == ParseForm(Reverse(stack))
    ensures stack != [] ==> |rest| < |stack|
    decreases |stack|
  {
    if stack == [] {
      return Err(ParserError(NotEnoughTokens)), [];
    }
    var tokens := stack[..|stack| - 1];
    if stack[|stack| - 1] != LParen {
      return Err(ParserError(NotEnoughTokens)), tokens;
    }
    ghost var goal := ParseForm(Reverse(stack));
    PopTop(stack);
    var list: seq<Object> := [];
    while tokens != []
      invariant |tokens| < |stack|
      invariant goal == ParseItems(Reverse(tokens), list)
      decreases |tokens|
    {
      var t := tokens[|tokens| - 1];
      ghost var before, acc := tokens, list;
      tokens := tokens[..|tokens| - 1];
      PopTop(before);
      var rest := Reverse(tokens);
      match t {
        case Integer(n) =>
          ItemsAfterInteger(n, rest, list);
          list := list + [Object.Integer(n)];
        case Symbol(s) =>
          ItemsAfterSymbol(s, rest, list);
          if IsQuoted(s) {
            if |s| < 2 {
              return Panic(SlicePanic(s)), tokens;
            }
            list := list + [String(s[1..|s| - 1])];
          } else {
            list := list + [Object.Symbol(s)];
          }
        case LParen =>
          tokens := tokens + [LParen];
          assert tokens == before;
          var sub, left := ParseList(tokens);
          ItemsAfterList(Reverse(before), list);
          if !sub.Ok? {
            return sub, left;
          }
          tokens := left;
          list := list + [sub.value];
        case RParen =>
          ItemsAfterClose(rest, list);
          return Ok(List(list)), tokens;
      }
    }
    return Ok(List(list)), tokens;
  }

  /** `from_tokens`: the list the tokens start with, in program order. */
  method FromTokens(tokens: seq<Token>) returns (r: Result<Object, ParserError>)
    ensures r == ParseForm(tokens).0
    ensures r.Err? <==> tokens == [] || tokens[0] != LParen
  {
    var stack := Reverse(tokens);
    ReverseReverse(tokens);
    r, stack := ParseList(stack);
  }

  lemma ItemsAfterInteger(n: i64, ts: seq<Token>, acc: seq<Object>)
    ensures ParseItems([Token.Integer(n)] + ts, acc) == ParseItems(ts, acc + [Object.Integer(n)])
  {
    assert ([Token.Integer(n)] + ts)[1..] == ts;
  }

  lemma ItemsAfterSymbol(s: string, ts: seq<Token>, acc: seq<Object>)
    ensures !IsQuoted(s) ==> ParseItems([Token.Symbol(s)] + ts, acc) == ParseItems(ts, acc + [Object.Symbol(s)])
    ensures IsQuoted(s) && |s| < 2 ==>
      ParseItems([Token.Symbol(s)] + ts, acc) == (Panic(SlicePanic(s)), ts)
    ensures IsQuoted(s) && |s| >= 2 ==>
      ParseItems([Token.Symbol(s)] + ts, acc) == ParseItems(ts, acc + [String(s[1..|s| - 1])])
  {
    assert ([Token.Symbol(s)] + ts)[1..] == ts;
  }

  lemma ItemsAfterClose(ts: seq<Token>, acc: seq<Object>)
    ensures ParseItems([RParen] + ts, acc) == (Ok(List(acc)), ts)
  {
    assert ([RParen] + ts)[1..] == ts;
  }

  lemma ItemsAfterList(ts: seq<Token>, acc: seq<Object>)
    requires ts != [] && ts[0] == LParen
    ensures ParseItems(ts, acc) ==
      var (r, rest) := ParseForm(ts);
      if r.Ok? then ParseItems(rest, acc + [r.value]) else (r, rest)
  {
  }

  // ---------------------------------------------------------------------------
  // Tokens of an object, and the round trip

  /** The tokens an object is read back from: a string as a symbol between
      double quotes, a list between parentheses. */
  function TokensOf(o: Object): (ts: seq<Token>)
    requires Parseable(o)
    ensures |ts| > 0
    ensures o.List? <==> ts[0] == LParen
  {
    match o
    case Integer(n) => [Token.Integer(n)]
    case Symbol(s) => [Token.Symbol(s)]
    case String(s) => [Token.Symbol("\"" + s + "\"")]
    case List(items) => [LParen] + TokensOfItems(items) + [RParen]
  }

  function TokensOfItems(items: seq<Object>): seq<Token>
    requires forall i :: 0 <= i < |items| ==> Parseable(items[i])
  {
    if items == [] then [] else TokensOf(items[0]) + TokensOfItems(items[1..])
  }

  /** Parsing the tokens of a list yields that list and leaves what follows
      untouched. */
  lemma {:induction false} ParseFormRoundTrip(o: Object, rest: seq<Token>)
    requires o.List? && Parseable(o)
    ensures ParseForm(TokensOf(o) + rest) == (Ok(o), rest)
    decreases o, 1
  {
    var ts := TokensOf(o) + rest;
    assert ts[1..] == TokensOfItems(o.items) + ([RParen] + rest);
    ParseItemsRoundTrip(o, o.items, [], [RParen] + rest);
    assert [] + o.items == o.items;
    assert ([RParen] + rest)[1..] == rest;
  }

  /** The elements' tokens, followed by tokens that do not continue the list
      (a closing parenthesis first), add the elements to the accumulator. */
  lemma {:induction false} ParseItemsRoundTrip(o: Object, items: seq<Object>, acc: seq<Object>, rest: seq<Token>)
    requires o.List? && Parseable(o) && |items| <= |o.items| && items == o.items[|o.items| - |items|..]
    requires rest == [] || rest[0] == RParen
    ensures ParseItems(TokensOfItems(items) + rest, acc) == ParseItems(rest, acc + items)
    decreases o, 0, |items|
  {
    if items != [] {
      var x := items[0];
      assert x == o.items[|o.items| - |items|] && x < o;
      var ts := TokensOfItems(items) + rest;
      var tail := TokensOfItems(items[1..]) + rest;
      assert ts == TokensOf(x) + tail;
      match x {
        case Integer(n) =>
          ItemsAfterInteger(n, tail, acc);
        case Symbol(s) =>
          ItemsAfterSymbol(s, tail, acc);
        case String(s) =>
          var q := "\"" + s + "\"";
          assert IsQuoted(q) && q[1..|q| - 1] == s;
          ItemsAfterSymbol(q, tail, acc);
        case List(_) =>
          ParseFormRoundTrip(x, tail);
          ItemsAfterList(ts, acc);
      }
      assert ParseItems(ts, acc) == ParseItems(tail, acc + [x]);
      RemainingItems(o, items, acc, rest);
    } else {
      assert TokensOfItems(items) + rest == rest && acc + items == acc;
    }
  }

  lemma {:induction false} RemainingItems(o: Object, items: seq<Object>, acc: seq<Object>, rest: seq<Token>)
    requires o.List? && Parseable(o) && |items| <= |o.items| && items == o.items[|o.items| - |items|..]
    requires items != []
    requires rest == [] || rest[0] == RParen
    ensures ParseItems(TokensOfItems(items[1..]) + rest, acc + [items[0]]) == ParseItems(rest, acc + items)
    decreases o, 0, |items|, 0
  {
    SuffixTail(o.items, items);
    ParseItemsRoundTrip(o, items[1..], acc + [items[0]], rest);
    MoveHead(acc, items);
  }

  lemma SuffixTail<T>(s: seq<T>, u: seq<T>)
    requires u != [] && |u| <= |s| && u == s[|s| - |u|..]
    ensures u[1..] == s[|s| - |u[1..]|..]
  {
  }

  lemma MoveHead<T>(acc: seq<T>, items: seq<T>)
    requires items != []
    ensures acc + [items[0]] + items[1..] == acc + items
  {
    assert items == [items[0]] + items[1..];
  }

  // ---------------------------------------------------------------------------
  // Printing with `Display` and reading back

  /** An object whose `Display` text reads back as the object: integers; symbols
      that are non-empty runs of ordinary characters, not quote-wrapped, that
      do not read as an `i64`; strings whose contents are runs of ordinary
      characters; and lists of these. */
  predicate Printable(o: Object) {
    match o
    case Integer(_) => true
    case Symbol(s) => |s| > 0 && AllOrdinary(s) && !IsQuoted(s) && ParseI64(s).None?
    case String(s) => AllOrdinary(s)
    case List(items) => forall i :: 0 <= i < |items| ==> Printable(items[i])
    case _ => false
  }

  lemma {:induction false} PrintableIsParseable(o: Object)
    requires Printable(o)
    ensures Parseable(o)
  {
    if o.List? {
      forall i | 0 <= i < |o.items| {
        PrintableIsParseable(o.items[i]);
      }
    }
  }

  /** `Display` writes an object as the text the tokenizer splits into
      exactly the object's tokens. */
  lemma {:induction false} DisplayTokens(o: Object)
    requires Printable(o)
    ensures Parseable(o) && Tokens(Display(o)) == TokensOf(o)
    decreases o, 1
  {
    PrintableIsParseable(o);
    match o {
      case Integer(n) => DisplayInteger(n);
      case Symbol(s) => DisplayWord(s);
      case String(s) => DisplayString(s);
      case List(items) =>
        DisplayItemsTokens(o, items);
        DisplayList(items);
    }
  }

  lemma DisplayInteger(n: i64)
    ensures Tokens(Display(Object.Integer(n))) == TokensOf(Object.Integer(n))
  {
    DecimalShape(n);
    DecimalRoundTrip(n);
    DisplayWord(Decimal(n));
  }

  lemma DisplayString(s: string)
    requires AllOrdinary(s)
    ensures Tokens(Display(Object.String(s))) == TokensOf(Object.String(s))
  {
    var q := "\"" + s + "\"";
    assert AllOrdinary(q) by {
      assert forall i :: 0 < i < |q| - 1 ==> q[i] == s[i - 1];
    }
    DisplayWord(q);
  }

  /** A list is displayed between parentheses, which are tokens of their own. */
  lemma DisplayList(items: seq<Object>)
    requires Parseable(List(items))
    requires Tokens(DisplayItems(items)) == TokensOfItems(items)
    ensures Tokens(Display(List(items))) == TokensOf(List(items))
  {
    var inner := DisplayItems(items);
    assert Display(List(items)) == ['('] + (inner + ")");
    TokensBetweenParens(inner);
  }

  /** A word of ordinary characters is lexed as itself. */
  lemma DisplayWord(w: string)
    requires |w| > 0 && AllOrdinary(w)
    ensures Tokens(w) == [Classify(w)]
  {
    LexemesWord(w, []);
    assert w + [] == w;
  }

  /** The elements of a list, displayed and separated by spaces, are split
      into the elements' tokens one after another. */
  lemma {:induction false} DisplayItemsTokens(o: Object, items: seq<Object>)
    requires o.List? && Printable(o) && |items| <= |o.items| && items == o.items[|o.items| - |items|..]
    ensures forall i :: 0 <= i < |items| ==> Parseable(items[i])
    ensures Tokens(DisplayItems(items)) == TokensOfItems(items)
    decreases o, 0, |items|
  {
    PrintableIsParseable(o);
    assert forall i :: 0 <= i < |items| ==> items[i] == o.items[|o.items| - |items| + i];
    if items != [] {
      var x := items[0];
      assert x == o.items[|o.items| - |items|] && x < o;
      DisplayTokens(x);
      if |items| == 1 {
        assert TokensOfItems(items) == TokensOf(x) + TokensOfItems([]);
      } else {
        var rest := items[1..];
        assert rest == o.items[|o.items| - |rest|..];
        DisplayItemsTokens(o, rest);
        var tail := DisplayItems(rest);
        assert DisplayItems(items) == Display(x) + ([' '] + tail);
        LexemesConcat(Display(x), [' '] + tail);
        LexemesWhitespace(' ', tail);
        ClassifyAllConcat(Lexemes(Display(x)), Lexemes(tail));
      }
    }
  }

  /** Print then read: a printable list, written with `Display`, tokenized
      and parsed, gives back the same list with nothing left over. */
  lemma PrintThenRead(o: Object)
    requires o.List? && Printable(o)
    ensures ParseForm(Tokens(Display(o))) == (Ok(o), [])
  {
    DisplayTokens(o);
    assert TokensOf(o) + [] == TokensOf(o);
    ParseFormRoundTrip(o, []);
  }

  /** A printable object after whitespace and before a separator is read
      as its own tokens. */
  lemma IndentedTokens(pad: string, x: Object, rest: string)
    requires Blank(pad)
    requires Printable(x) && (rest == [] || !IsOrdinary(rest[0]))
    ensures Parseable(x) && Tokens(pad + Display(x) + rest) == TokensOf(x) + Tokens(rest)
  {
    DisplayTokens(x);
    assert pad + Display(x) + rest == pad + (Display(x) + rest);
    LexemesAfterBlanks(pad, Display(x) + rest);
    LexemesConcat(Display(x), rest);
    ClassifyAllConcat(Lexemes(Display(x)), Lexemes(rest));
  }

  /** A list whose closing parenthesis is missing is still returned, without
      an error, once the tokens run out. */
  lemma UnclosedList(items: seq<Object>)
    requires Parseable(List(items))
    ensures ParseForm([LParen] + TokensOfItems(items)) == (Ok(List(items)), [])
  {
    var o := List(items);
    assert ([LParen] + TokensOfItems(items))[1..] == TokensOfItems(items) + [];
    ParseItemsRoundTrip(o, items, [], []);
    assert [] + items == items;
  }

  /** A lone quote character as an element makes the parser panic. */
  lemma LoneQuotePanics(rest: seq<Token>)
    ensures ParseForm([LParen, Token.Symbol("\"")] + rest).0.Panic?
  {
    assert ([LParen, Token.Symbol("\"")] + rest)[1..] == [Token.Symbol("\"")] + rest;
    ItemsAfterSymbol("\"", rest, []);
  }

  /** The tokens of `(+ 1 2)` read as a three-element list. */
  lemma AdditionTokensParse()
    ensures ParseForm([LParen, Token.Symbol("+"), Token.Integer(1), Token.Integer(2), RParen]).0 ==
      Ok(List([Object.Symbol("+"), Object.Integer(1), Object.Integer(2)]))
  {
    var o := List([Object.Symbol("+"), Object.Integer(1), Object.Integer(2)]);
    assert TokensOfItems(o.items) == [Token.Symbol("+"), Token.Integer(1), Token.Integer(2)];
    assert TokensOf(o) + [] == [LParen, Token.Symbol("+"), Token.Integer(1), Token.Integer(2), RParen];
    ParseFormRoundTrip(o, []);
  }

  /** The parser's addition test: `(+ 1 2)` reads as a three-element list. */
  lemma AdditionParse()
    ensures ParseForm(Tokens("(+ 1 2)")).0 == Ok(List([Object.Symbol("+"), Object.Integer(1), Object.Integer(2)]))
  {
    AdditionExample();
    AdditionTokensParse();
  }

  // ---------------------------------------------------------------------------
  // The parser's area-of-a-circle test

  const Indent := "\n        "
  const AreaProgram := "(" + Indent + "(define r 10)" + Indent + "(define pi 314)" + Indent + "(* pi (* r r))" + "\n    " + ")"
  const DefineR := List([Object.Symbol("define"), Object.Symbol("r"), Object.Integer(10)])
  const DefinePi := List([Object.Symbol("define"), Object.Symbol("pi"), Object.Integer(314)])
  const AreaOf := List([Object.Symbol("*"), Object.Symbol("pi"), List([Object.Symbol("*"), Object.Symbol("r"), Object.Symbol("r")])])
  const AreaList := List([DefineR, DefinePi, AreaOf])

  /** A three-element list prints as its elements between parentheses,
      separated by single spaces. */
  lemma DisplayTriple(a: Object, b: Object, c: Object)
    ensures Display(List([a, b, c])) == "(" + (Display(a) + " " + (Display(b) + " " + Display(c))) + ")"
  {
    assert [a, b, c][1..] == [b, c] && [b, c][1..] == [c];
    assert DisplayItems([b, c]) == Display(b) + " " + Display(c);
    assert DisplayItems([a, b, c]) == Display(a) + " " + DisplayItems([b, c]);
  }

  lemma PrintableTriple(a: Object, b: Object, c: Object)
    requires Printable(a) && Printable(b) && Printable(c)
    ensures Printable(List([a, b, c]))
  {
  }

  /** A word of letters or operator characters is a printable symbol. */
  lemma PrintableWord(w: string)
    requires w in {"define", "r", "pi", "*"}
    ensures Printable(Object.Symbol(w))
  {
    assert !AllDigits(w) by { assert !IsDigit(w[0]); }
  }

  lemma DecimalTen()
    ensures Decimal(10) == "10"
  {
    assert Digits(1) == ['1'];
    assert Digits(10) == Digits(1) + ['0'];
  }

  lemma DecimalPi()
    ensures Decimal(314) == "314"
  {
    assert Digits(3) == ['3'];
    var d31 := Digits(31);
    assert d31 == Digits(3) + ['1'];
    assert Digits(314) == d31 + ['4'];
  }

  /** `(define w n)` for a printable name `w` is printable, and is displayed
      with its three parts separated by single spaces. */
  lemma DefineForm(w: string, n: i64)
    requires w in {"r", "pi"}
    ensures var form := List([Object.Symbol("define"), Object.Symbol(w), Object.Integer(n)]);
      Printable(form) && Display(form) == "(" + ("define" + " " + (w + " " + Decimal(n))) + ")"
  {
    var define, name, value := Object.Symbol("define"), Object.Symbol(w), Object.Integer(n);
    PrintableWord("define");
    PrintableWord(w);
    PrintableTriple(define, name, value);
    DisplayTriple(define, name, value);
  }

  lemma DefineRForm()
    ensures Printable(DefineR) && Display(DefineR) == "(define r 10)"
  {
    DefineForm("r", 10);
    DecimalTen();
    DefineRText();
  }

  lemma DefineRText()
    ensures "(" + ("define" + " " + ("r" + " " + "10")) + ")" == "(define r 10)"
  {
  }

  lemma DefinePiForm()
    ensures Printable(DefinePi) && Display(DefinePi) == "(define pi 314)"
  {
    DefineForm("pi", 314);
    DecimalPi();
    DefinePiText();
  }

  lemma DefinePiText()
    ensures "(" + ("define" + " " + ("pi" + " " + "314")) + ")" == "(define pi 314)"
  {
  }

  lemma AreaOfForm()
    ensures Printable(AreaOf) && Display(AreaOf) == "(* pi (* r r))"
  {
    var times, pi, r := Object.Symbol("*"), Object.Symbol("pi"), Object.Symbol("r");
    PrintableWord("*");
    PrintableWord("pi");
    PrintableWord("r");
    PrintableTriple(times, r, r);
    DisplayTriple(times, r, r);
    var square := List([times, r, r]);
    AreaOfText();
    PrintableTriple(times, pi, square);
    DisplayTriple(times, pi, square);
  }

  lemma AreaOfText()
    ensures "(" + ("*" + " " + ("r" + " " + "r")) + ")" == "(* r r)"
    ensures "(" + ("*" + " " + ("pi" + " " + "(* r r)")) + ")" == "(* pi (* r r))"
  {
  }

  /** Printable forms, each after the same indentation, and closing
      whitespace, are split into the forms' tokens one after another. */
  lemma IndentedTriple(p: string, q: string, x: Object, y: Object, z: Object)
    requires p != [] && Blank(p)
    requires Blank(q)
    requires Printable(x) && Printable(y) && Printable(z)
    ensures Parseable(x) && Parseable(y) && Parseable(z)
    ensures Tokens(p + Display(x) + (p + Display(y) + (p + Display(z) + q))) == TokensOf(x) + (TokensOf(y) + TokensOf(z))
  {
    var second := p + Display(y) + (p + Display(z) + q);
    IndentedPair(p, q, y, z);
    assert second[0] == p[0];
    IndentedTokens(p, x, second);
  }

  lemma IndentedPair(p: string, q: string, y: Object, z: Object)
    requires p != [] && Blank(p)
    requires Blank(q)
    requires Printable(y) && Printable(z)
    ensures Parseable(y) && Parseable(z)
    ensures Tokens(p + Display(y) + (p + Display(z) + q)) == TokensOf(y) + TokensOf(z)
  {
    var third := p + Display(z) + q;
    IndentedSingle(p, q, z);
    assert third[0] == p[0];
    IndentedTokens(p, y, third);
  }

  lemma IndentedSingle(p: string, q: string, z: Object)
    requires Blank(p)
    requires Blank(q)
    requires Printable(z)
    ensures Parseable(z) && Tokens(p + Display(z) + q) == TokensOf(z)
  {
    IndentedTokens(p, z, q);
    LexemesAfterBlanks(q, []);
    assert q + [] == q;
  }

  lemma TokensOfTriple(x: Object, y: Object, z: Object)
    requires Parseable(x) && Parseable(y) && Parseable(z)
    ensures Parseable(List([x, y, z]))
    ensures TokensOf(List([x, y, z])) == [LParen] + (TokensOf(x) + (TokensOf(y) + TokensOf(z))) + [RParen]
  {
    assert [x, y, z][1..] == [y, z] && [y, z][1..] == [z] && [z][1..] == [];
    assert TokensOfItems([z]) == TokensOf(z) + TokensOfItems([]) == TokensOf(z);
    assert TokensOfItems([y, z]) == TokensOf(y) + TokensOfItems([z]);
    assert TokensOfItems([x, y, z]) == TokensOf(x) + TokensOfItems([y, z]);
  }

  lemma Regroup(p: string, a: string, b: string, c: string, q: string)
    ensures "(" + p + a + p + b + p + c + q + ")" == ['('] + ((p + a + (p + b + (p + c + q))) + ")")
  {
  }

  /** The program's text, indented over several lines, is split into the
      tokens of the expected list. */
  lemma AreaTokens()
    ensures Parseable(AreaList) && Tokens(AreaProgram) == TokensOf(AreaList)
  {
    var p, q := Indent, "\n    ";
    var a, b, c := Display(DefineR), Display(DefinePi), Display(AreaOf);
    var inner := p + a + (p + b + (p + c + q));
    AreaLayout();
    assert AreaProgram == ['('] + (inner + ")") by {
      Regroup(p, a, b, c, q);
    }
    TokensBetweenParens(inner);
    IndentedTriple(p, q, DefineR, DefinePi, AreaOf);
    TokensOfTriple(DefineR, DefinePi, AreaOf);
  }

  lemma NewlineAndSpacesBlank(s: string)
    requires forall i :: 0 <= i < |s| ==> s[i] == '\n' || s[i] == ' '
    ensures Blank(s)
  {
  }

  /** The forms print as the program writes them, and its indentation is
      whitespace. */
  lemma AreaLayout()
    ensures Printable(DefineR) && Printable(DefinePi) && Printable(AreaOf)
    ensures AreaProgram == "(" + Indent + Display(DefineR) + Indent + Display(DefinePi) + Indent + Display(AreaOf) + "\n    " + ")"
    ensures Indent != [] && Blank(Indent) && Blank("\n    ")
  {
    NewlineAndSpacesBlank(Indent);
    NewlineAndSpacesBlank("\n    ");
    DefineRForm();
    DefinePiForm();
    AreaOfForm();
  }

  /** The parser's area-of-a-circle test: the indented program reads as a
      list of its three forms. */
  lemma AreaParse()
    ensures ParseForm(Tokens(AreaProgram)).0 == Ok(AreaList)
  {
    AreaTokens();
    assert TokensOf(AreaList) + [] == TokensOf(AreaList);
    ParseFormRoundTrip(AreaList, []);
  }
}
