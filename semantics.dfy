/** What risp_eval/src/evaluator/implementation.rs computes, as functions on
    values: every `eval_*` method becomes a function from an object and the
    chain of scopes (innermost first) to the result and the new chain.

    Evaluation need not terminate (a lambda may call itself forever, which
    overflows the Rust stack), so every function takes a `fuel` bound on the
    nesting depth of `eval_obj` calls; running out of fuel is reported as a
    panic, as a stack overflow would abort the Rust program. */
module Semantics {
  import opened Wrappers
  import opened Text
  import opened Environment

  /** The objects the evaluator matches on: the six variants of `eval_obj`. */
  datatype Value =
    | Void
    | Lambda(params: seq<string>, body: seq<Value>)
    | Bool(b: bool)
    | Integer(n: i64)
    | Symbol(s: string)
    | List(items: seq<Value>)

  type Outcome = (Result<Value, string>, Scopes<Value>)

  const StackOverflow := "stack overflow"

  /** The message of a panicking `list[index]`. */
  function IndexPanic(len: nat, index: nat): string {
    "index out of bounds: the len is " + Digits(len) + " but the index is " + Digits(index)
  }

  // ---------------------------------------------------------------------------
  // `{:?}` of an object, as `#[derive(Debug)]` writes it

  /** A character inside the Debug text of a string. */
  function EscapeChar(c: char): string {
    if c == '"' then "\\\""
    else if c == '\\' then "\\\\"
    else if c == '\n' then "\\n"
    else if c == '\r' then "\\r"
    else if c == '\t' then "\\t"
    else if c == '\0' then "\\0"
    else [c]
  }

  function Escape(s: string): string {
    if s == [] then "" else EscapeChar(s[0]) + Escape(s[1..])
  }

  /** `{:?}` of a `String`. */
  function Quote(s: string): string {
    "\"" + Escape(s) + "\""
  }

  function QuoteAll(ss: seq<string>): string {
    if ss == [] then "" else if |ss| == 1 then Quote(ss[0]) else Quote(ss[0]) + ", " + QuoteAll(ss[1..])
  }

  function DebugText(v: Value): string {
    match v
    case Void => "Void"
    case Lambda(params, body) => "Lambda([" + QuoteAll(params) + "], [" + DebugAll(body) + "])"
    case Bool(b) => if b then "Bool(true)" else "Bool(false)"
    case Integer(n) => "Integer(" + Decimal(n) + ")"
    case Symbol(s) => "Symbol(" + Quote(s) + ")"
    case List(items) => "List([" + DebugAll(items) + "])"
  }

  function DebugAll(vs: seq<Value>): string {
    if vs == [] then ""
    else if |vs| == 1 then DebugText(vs[0])
    else DebugText(vs[0]) + ", " + DebugAll(vs[1..])
  }

  // ---------------------------------------------------------------------------
  // Integer arithmetic of `i64` in a debug build

  function Abs(x: int): nat { if x < 0 then -x else x }

  /** Rust's `/` on integers: the quotient rounded toward zero. */
  function TruncDiv(a: int, b: int): int
    requires b != 0
  {
    if (a < 0) == (b < 0) then Abs(a) / Abs(b) else -(Abs(a) / Abs(b))
  }

  /** Division rounding toward zero: the remainder is smaller than the divisor
      and has the sign of the dividend. */
  lemma TruncDivRemainder(a: int, b: int)
    requires b != 0
    ensures var r := a - TruncDiv(a, b) * b;
      Abs(r) < Abs(b) && (r != 0 ==> (r < 0 <==> a < 0))
  {
    var d: int := Abs(b);
    var m: int, e: int := Abs(a) / d, Abs(a) % d;
    assert Abs(a) == m * d + e && 0 <= e < d;
    ProductSign(a, b, m);
    assert a - TruncDiv(a, b) * b == if a < 0 then -e else e;
  }

  /** The quotient times the divisor has the sign of the dividend. */
  lemma ProductSign(a: int, b: int, m: int)
    requires b != 0
    ensures (if (a < 0) == (b < 0) then m else -m) * b == if a < 0 then -(m * Abs(b)) else m * Abs(b)
  {
    if b < 0 {
      NegateFactor(m, Abs(b));
      NegateFactor(-m, Abs(b));
    }
  }

  lemma NegateFactor(x: int, y: int)
    ensures x * (-y) == -(x * y) && (-y) * x == -(y * x)
  {
  }

  /** The quotient is never larger in magnitude than the dividend. */
  lemma TruncDivMagnitude(a: int, b: int)
    requires b != 0
    ensures Abs(TruncDiv(a, b)) <= Abs(a)
    ensures Abs(b) == 1 ==> Abs(TruncDiv(a, b)) == Abs(a)
  {
    var m := Abs(a) / Abs(b);
    assert m * Abs(b) <= Abs(a);
    assert m <= m * Abs(b);
  }

  /** Of all `i64` divisions by a non-zero divisor, only `i64::MIN / -1`
      leaves the range and panics. */
  lemma DivisionOverflow(a: i64, b: i64)
    requires b != 0
    ensures !InI64(TruncDiv(a, b)) <==> a == I64_MIN && b == -1
  {
    TruncDivMagnitude(a, b);
    if a == I64_MIN && b == -1 {
      assert TruncDiv(a, b) == I64_MAX + 1;
    }
  }

  /** A debug-build arithmetic result: the value, or the overflow panic. */
  function Checked(x: int, op: string): (r: Result<Value, string>)
    ensures r.Ok? <==> InI64(x)
    ensures r.Ok? ==> r.value == Integer(x)
    ensures !r.Ok? ==> r == Panic("attempt to " + op + " with overflow")
  {
    if InI64(x) then Ok(Integer(x)) else Panic("attempt to " + op + " with overflow")
  }

  predicate IsOperator(s: string) {
    s == "+" || s == "-" || s == "*" || s == "/" || s == "<" || s == ">" || s == "=" || s == "!="
  }

  /** The `match s.as_str()` of `eval_binary_op`, on evaluated operands. */
  function ApplyOperator(op: string, l: i64, r: i64): (res: Result<Value, string>)
    ensures !IsOperator(op) ==> res == Err("Invalid infix operator: " + op)
    ensures res.Err? <==> (op == "/" && r == 0) || !IsOperator(op)
    ensures op == "+" ==> (res.Ok? <==> InI64(l + r)) && (res.Ok? ==> res.value.Integer? && res.value.n == l + r)
    ensures op == "-" ==> (res.Ok? <==> InI64(l - r)) && (res.Ok? ==> res.value.Integer? && res.value.n == l - r)
    ensures op == "*" ==> (res.Ok? <==> InI64(l * r)) && (res.Ok? ==> res.value.Integer? && res.value.n == l * r)
    ensures op in {"+", "-", "*"} && !res.Ok? ==> res.Panic?
    ensures op == "/" && r == 0 ==> res == Err("Division by zero")
    ensures op == "/" && r != 0 ==> (res.Panic? <==> l == I64_MIN && r == -1)
    ensures op == "/" && res.Ok? ==> res.value.Integer? && res.value.n == TruncDiv(l, r)
    ensures op == "<" ==> res == Ok(Bool(l < r))
    ensures op == ">" ==> res == Ok(Bool(l > r))
    ensures op == "=" ==> res == Ok(Bool(l == r))
    ensures op == "!=" ==> res == Ok(Bool(l != r))
  {
    if op == "+" then Checked(l + r, "add")
    else if op == "-" then Checked(l - r, "subtract")
    else if op == "*" then Checked(l * r, "multiply")
    else if op == "/" then
      if r == 0 then Err("Division by zero")
      else DivisionOverflow(l, r); Checked(TruncDiv(l, r), "divide")
    else if op == "<" then Ok(Bool(l < r))
    else if op == ">" then Ok(Bool(l > r))
    else if op == "=" then Ok(Bool(l == r))
    else if op == "!=" then Ok(Bool(l != r))
    else Err("Invalid infix operator: " + op)
  }

  // ---------------------------------------------------------------------------
  // The evaluator

  /** `eval_symbol`. */
  function InterpSymbol(s: string, sc: Scopes<Value>): (r: Result<Value, string>)
    ensures r.Ok? <==> Lookup(sc, s).Some?
    ensures r.Ok? ==> r.value == Lookup(sc, s).value
    ensures !r.Ok? ==> r == Err("Unbound symbol: " + s)
  {
    match Lookup(sc, s)
    case Some(v) => Ok(v)
    case None => Err("Unbound symbol: " + s)
  }

  /** `eval_obj`: lists are evaluated, lambdas become `Void`, symbols are
      looked up and everything else evaluates to itself. */
  function Interp(v: Value, sc: Scopes<Value>, fuel: nat): (o: Outcome)
    requires sc != []
    ensures |o.1| >= |sc|
    ensures o.0.Ok? ==> |o.1| == |sc| && o.1[1..] == sc[1..]
    ensures !v.List? ==> o.1 == sc
    decreases fuel, 0
  {
    if fuel == 0 then (Panic(StackOverflow), sc)
    else match v
      case List(items) => InterpList(items, sc, fuel - 1)
      case Void => (Ok(Void), sc)
      case Lambda(_, _) => (Ok(Void), sc)
      case Bool(_) => (Ok(v), sc)
      case Integer(_) => (Ok(v), sc)
      case Symbol(s) => (InterpSymbol(s, sc), sc)
  }

  /** `eval_list`: dispatch on a symbol at the head, otherwise evaluate every
      element in turn and keep the results that are not `Void`. */
  function InterpList(items: seq<Value>, sc: Scopes<Value>, fuel: nat): (o: Outcome)
    requires sc != []
    ensures |o.1| >= |sc|
    ensures o.0.Ok? ==> |o.1| == |sc| && o.1[1..] == sc[1..]
    decreases fuel, 2
  {
    if items == [] then (Panic(IndexPanic(0, 0)), sc)
    else match items[0]
      case Symbol(s) =>
        if IsOperator(s) then InterpBinary(items, sc, fuel)
        else if s == "define" then InterpDefine(items, sc, fuel)
        else if s == "if" then InterpIf(items, sc, fuel)
        else if s == "lambda" then (LambdaOf(items), sc)
        else InterpCall(s, items, sc, fuel)
      case _ => InterpEach(items, [], sc, fuel)
  }

  /** The loop of `eval_list` over the elements still to evaluate, with the
      results kept so far. */
  function InterpEach(rest: seq<Value>, acc: seq<Value>, sc: Scopes<Value>, fuel: nat): (o: Outcome)
    requires sc != []
    ensures |o.1| >= |sc|
    ensures o.0.Ok? ==> |o.1| == |sc| && o.1[1..] == sc[1..]
    ensures o.0.Ok? ==> o.0.value.List? && |acc| <= |o.0.value.items| <= |acc| + |rest| && o.0.value.items[..|acc|] == acc
    decreases fuel, 1, |rest|
  {
    if rest == [] then (Ok(List(acc)), sc)
    else
      var (r, sc1) := Interp(rest[0], sc, fuel);
      if !r.Ok? then (r, sc1)
      else InterpEach(rest[1..], if r.value.Void? then acc else acc + [r.value], sc1, fuel)
  }

  /** `eval_binary_op`: exactly two operands, both evaluated (left first)
      before either is checked to be an integer. */
  function InterpBinary(items: seq<Value>, sc: Scopes<Value>, fuel: nat): (o: Outcome)
    requires sc != []
    ensures |o.1| >= |sc|
    ensures o.0.Ok? ==> |o.1| == |sc| && o.1[1..] == sc[1..]
    ensures o.0.Ok? ==> o.0.value.Integer? || o.0.value.Bool?
    decreases fuel, 1
  {
    if |items| != 3 then (Err("Invalid number of arguments for binary operation"), sc)
    else
      var (l, sc1) := Interp(items[1], sc, fuel);
      if !l.Ok? then (l, sc1)
      else
        var (r, sc2) := Interp(items[2], sc1, fuel);
        if !r.Ok? then (r, sc2)
        else if !l.value.Integer? then (Err("Left operand must be an integer " + DebugText(l.value)), sc2)
        else if !r.value.Integer? then (Err("Right operand must be an integer " + DebugText(r.value)), sc2)
        else match items[0]
          case Symbol(s) => (ApplyOperator(s, l.value.n, r.value.n), sc2)
          case _ => (Err("Operator must be a symbol"), sc2)
  }

  /** `eval_define`: bind a symbol, in the innermost scope, to the value of
      the third element. */
  function InterpDefine(items: seq<Value>, sc: Scopes<Value>, fuel: nat): (o: Outcome)
    requires sc != []
    ensures |o.1| >= |sc|
    ensures o.0.Ok? ==> |o.1| == |sc| && o.1[1..] == sc[1..]
    decreases fuel, 1
  {
    if |items| != 3 then (Err("Invalid number of arguments for define"), sc)
    else if !items[1].Symbol? then (Err("Invalid define"), sc)
    else
      var (r, sc1) := Interp(items[2], sc, fuel);
      if !r.Ok? then (r, sc1) else (Ok(Void), Bind(sc1, items[1].s, r.value))
  }

  /** `eval_if`: the condition must evaluate to a boolean, and selects the
      third or the fourth element. */
  function InterpIf(items: seq<Value>, sc: Scopes<Value>, fuel: nat): (o: Outcome)
    requires sc != []
    ensures |o.1| >= |sc|
    ensures o.0.Ok? ==> |o.1| == |sc| && o.1[1..] == sc[1..]
    decreases fuel, 1
  {
    if |items| != 4 then (Err("Invalid number of arguments for if"), sc)
    else
      var (c, sc1) := Interp(items[1], sc, fuel);
      if !c.Ok? then (c, sc1)
      else if !c.value.Bool? then (Err("Invalid condition"), sc1)
      else Interp(items[if c.value.b then 2 else 3], sc1, fuel)
  }

  predicate AllSymbols(vs: seq<Value>) {
    forall i :: 0 <= i < |vs| ==> vs[i].Symbol?
  }

  /** The names of a list of symbols. */
  function Names(vs: seq<Value>): (names: seq<string>)
    requires AllSymbols(vs)
    ensures |names| == |vs| && forall i :: 0 <= i < |vs| ==> names[i] == vs[i].s
  {
    if vs == [] then [] else [vs[0].s] + Names(vs[1..])
  }

  /** `eval_lambda`: the second element lists the parameter symbols and the
      third is the body; neither is evaluated. */
  function LambdaOf(items: seq<Value>): (r: Result<Value, string>)
    ensures r.Ok? <==> |items| >= 3 && items[1].List? && AllSymbols(items[1].items) && items[2].List?
    ensures r.Ok? ==> r.value == Lambda(Names(items[1].items), items[2].items)
    ensures r.Panic? <==> |items| < 2 || (|items| == 2 && items[1].List? && AllSymbols(items[1].items))
  {
    if |items| < 2 then Panic(IndexPanic(|items|, 1))
    else if !items[1].List? then Err("Invalid lambda")
    else if !AllSymbols(items[1].items) then Err("Invalid lambda parameter")
    else if |items| < 3 then Panic(IndexPanic(|items|, 2))
    else if !items[2].List? then Err("Invalid lambda")
    else Ok(Lambda(Names(items[1].items), items[2].items))
  }

  /** `eval_func_call`: look the name up; for a lambda, open a scope, bind
      the parameters to the arguments evaluated in that scope, evaluate the
      body and remove the scope again. A failing argument returns at once and
      leaves the scope open. */
  function InterpCall(name: string, items: seq<Value>, sc: Scopes<Value>, fuel: nat): (o: Outcome)
    requires sc != []
    ensures |o.1| >= |sc|
    ensures o.0.Ok? ==> o.1 == sc
    decreases fuel, 1
  {
    match Lookup(sc, name)
    case None => (Err("Function not found: " + name), sc)
    case Some(f) =>
      if !f.Lambda? then (Err("Not a lambda: " + name), sc)
      else
        var (a, sc1) := InterpArgs(f.params, 0, items, Push(sc), fuel);
        if !a.Ok? then (a, sc1)
        else
          var (r, sc2) := Interp(List(f.body), sc1, fuel);
          (r, Pop(sc2))
  }

  /** The loop of `eval_func_call` over the parameters from index `i` on:
      argument `i + 1` of the call is evaluated and bound to parameter `i`. */
  function InterpArgs(params: seq<string>, i: nat, items: seq<Value>, sc: Scopes<Value>, fuel: nat): (o: Outcome)
    requires sc != [] && i <= |params|
    ensures |o.1| >= |sc|
    ensures o.0.Ok? ==> o.0 == Ok(Void) && |o.1| == |sc| && o.1[1..] == sc[1..]
    decreases fuel, 1, |params| - i
  {
    if i == |params| then (Ok(Void), sc)
    else if i + 1 >= |items| then (Panic(IndexPanic(|items|, i + 1)), sc)
    else
      var (r, sc1) := Interp(items[i + 1], sc, fuel);
      if !r.Ok? then (r, sc1)
      else InterpArgs(params, i + 1, items, Bind(sc1, params[i], r.value), fuel)
  }
}
