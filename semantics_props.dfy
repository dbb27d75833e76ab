/** Properties of the evaluator of risp_eval/src/evaluator/implementation.rs,
    stated on the functions of `Semantics`. */
module SemanticsProperties {
  import opened Wrappers
  import opened Text
  import opened Environment
  import opened Semantics
  import opened SemanticsLaws

  // ---------------------------------------------------------------------------
  // Fuel is only a bound: an evaluation that does not run out of it gives the
  // same outcome with any larger bound. Running out propagates to the top,
  // because every `eval_*` returns a failed sub-evaluation unchanged.

  lemma {:induction false} InterpFuel(v: Value, sc: Scopes<Value>, f: nat, g: nat)
    requires sc != [] && f <= g && Interp(v, sc, f).0 != Panic(StackOverflow)
    ensures Interp(v, sc, g) == Interp(v, sc, f)
    decreases f, 0
  {
    if v.List? {
      InterpListFuel(v.items, sc, f - 1, g - 1);
    }
  }

  lemma {:induction false} InterpListFuel(items: seq<Value>, sc: Scopes<Value>, f: nat, g: nat)
    requires sc != [] && f <= g && InterpList(items, sc, f).0 != Panic(StackOverflow)
    ensures InterpList(items, sc, g) == InterpList(items, sc, f)
    decreases f, 2
  {
    if items != [] {
      match items[0]
      case Symbol(s) =>
        if IsOperator(s) {
          InterpBinaryFuel(items, sc, f, g);
        } else if s == "define" {
          InterpDefineFuel(items, sc, f, g);
        } else if s == "if" {
          InterpIfFuel(items, sc, f, g);
        } else if s != "lambda" {
          InterpCallFuel(s, items, sc, f, g);
        }
      case _ =>
        InterpEachFuel(items, [], sc, f, g);
    }
  }

  lemma {:induction false} InterpEachFuel(rest: seq<Value>, acc: seq<Value>, sc: Scopes<Value>, f: nat, g: nat)
    requires sc != [] && f <= g && InterpEach(rest, acc, sc, f).0 != Panic(StackOverflow)
    ensures InterpEach(rest, acc, sc, g) == InterpEach(rest, acc, sc, f)
    decreases f, 1, |rest|
  {
    if rest != [] {
      InterpFuel(rest[0], sc, f, g);
      var (r, sc1) := Interp(rest[0], sc, f);
      if r.Ok? {
        InterpEachFuel(rest[1..], if r.value.Void? then acc else acc + [r.value], sc1, f, g);
      }
    }
  }

  lemma {:induction false} InterpBinaryFuel(items: seq<Value>, sc: Scopes<Value>, f: nat, g: nat)
    requires sc != [] && f <= g && InterpBinary(items, sc, f).0 != Panic(StackOverflow)
    ensures InterpBinary(items, sc, g) == InterpBinary(items, sc, f)
    decreases f, 1
  {
    if |items| == 3 {
      InterpFuel(items[1], sc, f, g);
      var (l, sc1) := Interp(items[1], sc, f);
      if l.Ok? {
        InterpFuel(items[2], sc1, f, g);
      }
    }
  }

  lemma {:induction false} InterpDefineFuel(items: seq<Value>, sc: Scopes<Value>, f: nat, g: nat)
    requires sc != [] && f <= g && InterpDefine(items, sc, f).0 != Panic(StackOverflow)
    ensures InterpDefine(items, sc, g) == InterpDefine(items, sc, f)
    decreases f, 1
  {
    if |items| == 3 && items[1].Symbol? {
      InterpFuel(items[2], sc, f, g);
    }
  }

  lemma {:induction false} InterpIfFuel(items: seq<Value>, sc: Scopes<Value>, f: nat, g: nat)
    requires sc != [] && f <= g && InterpIf(items, sc, f).0 != Panic(StackOverflow)
    ensures InterpIf(items, sc, g) == InterpIf(items, sc, f)
    decreases f, 1
  {
    if |items| == 4 {
      InterpFuel(items[1], sc, f, g);
      var (c, sc1) := Interp(items[1], sc, f);
      if c.Ok? && c.value.Bool? {
        InterpFuel(items[if c.value.b then 2 else 3], sc1, f, g);
      }
    }
  }

  lemma {:induction false} InterpCallFuel(name: string, items: seq<Value>, sc: Scopes<Value>, f: nat, g: nat)
    requires sc != [] && f <= g && InterpCall(name, items, sc, f).0 != Panic(StackOverflow)
    ensures InterpCall(name, items, sc, g) == InterpCall(name, items, sc, f)
    decreases f, 1
  {
    match Lookup(sc, name)
    case None =>
    case Some(fn) =>
      if fn.Lambda? {
        InterpArgsFuel(fn.params, 0, items, Push(sc), f, g);
        var (a, sc1) := InterpArgs(fn.params, 0, items, Push(sc), f);
        if a.Ok? {
          InterpFuel(List(fn.body), sc1, f, g);
        }
      }
  }

  lemma {:induction false} InterpArgsFuel(params: seq<string>, i: nat, items: seq<Value>, sc: Scopes<Value>, f: nat, g: nat)
    requires sc != [] && i <= |params| && f <= g
    requires InterpArgs(params, i, items, sc, f).0 != Panic(StackOverflow)
    ensures InterpArgs(params, i, items, sc, g) == InterpArgs(params, i, items, sc, f)
    decreases f, 1, |params| - i
  {
    if i < |params| && i + 1 < |items| {
      InterpFuel(items[i + 1], sc, f, g);
      var (r, sc1) := Interp(items[i + 1], sc, f);
      if r.Ok? {
        InterpArgsFuel(params, i + 1, items, Bind(sc1, params[i], r.value), f, g);
      }
    }
  }

  // ---------------------------------------------------------------------------
  // The programs of the evaluator tests, already parsed

  const Root: Scopes<Value> := [map[]]

  /** `(+ 1 2)` evaluates to 3. */
  lemma AddExample()
    ensures Interp(List([Symbol("+"), Integer(1), Integer(2)]), Root, 2).0 == Ok(Integer(3))
  {
  }

  /** `(/ 1 0)` fails with the division-by-zero message. */
  lemma DivisionByZeroExample()
    ensures Interp(List([Symbol("/"), Integer(1), Integer(0)]), Root, 2).0 == Err("Division by zero")
  {
  }

  // `(define r 10) (define pi 314) (* pi (* r r))`, one step at a time.

  const DefineR := List([Symbol("define"), Symbol("r"), Integer(10)])
  const DefinePi := List([Symbol("define"), Symbol("pi"), Integer(314)])
  const SquareR := List([Symbol("*"), Symbol("r"), Symbol("r")])
  const Area := List([Symbol("*"), Symbol("pi"), SquareR])
  const WithR: Scopes<Value> := [map["r" := Integer(10)]]
  const WithPi: Scopes<Value> := [map["r" := Integer(10), "pi" := Integer(314)]]

  lemma DefineRStep()
    ensures Interp(DefineR, Root, 3) == (Ok(Void), WithR)
  {
    assert Bind(Root, "r", Integer(10)) == WithR;
    assert InterpDefine(DefineR.items, Root, 2) == (Ok(Void), Bind(Root, "r", Integer(10)));
  }

  lemma DefinePiStep()
    ensures Interp(DefinePi, WithR, 3) == (Ok(Void), WithPi)
  {
    assert Bind(WithR, "pi", Integer(314)) == WithPi;
    assert InterpDefine(DefinePi.items, WithR, 2) == (Ok(Void), Bind(WithR, "pi", Integer(314)));
  }

  lemma AreaStep()
    ensures Interp(Area, WithPi, 3) == (Ok(Integer(31400)), WithPi)
  {
    assert Interp(SquareR, WithPi, 2) == (Ok(Integer(100)), WithPi);
  }

  /** Two definitions in the root scope, then an expression using them: the
      list keeps only the value that is not `Void`. */
  lemma VariablesExample()
    ensures Interp(List([DefineR, DefinePi, Area]), Root, 4) == (Ok(List([Integer(31400)])), WithPi)
  {
    DefineRStep();
    DefinePiStep();
    AreaStep();
    var items := [DefineR, DefinePi, Area];
    assert items[1..] == [DefinePi, Area] && items[1..][1..] == [Area] && items[1..][1..][1..] == [];
    assert Interp(List(items), Root, 4) == InterpEach(items, [], Root, 3);
    EachStep(items, [], Root, 3);
    EachStep(items[1..], [], WithR, 3);
    EachStep(items[1..][1..], [], WithPi, 3);
    assert InterpEach([], [Integer(31400)], WithPi, 3) == (Ok(List([Integer(31400)])), WithPi);
  }

  // `(define square (lambda (x) (* x x))) (square 10)`, one step at a time.

  const SquareBody := [Symbol("*"), Symbol("x"), Symbol("x")]
  const SquareLambda := List([Symbol("lambda"), List([Symbol("x")]), List(SquareBody)])
  const Square := Lambda(["x"], SquareBody)
  const DefineSquare := List([Symbol("define"), Symbol("square"), SquareLambda])
  const CallSquare := List([Symbol("square"), Integer(10)])
  const WithSquare: Scopes<Value> := [map["square" := Square]]
  const InCall: Scopes<Value> := [map["x" := Integer(10)], map["square" := Square]]

  lemma DefineSquareStep()
    ensures Interp(DefineSquare, Root, 3) == (Ok(Void), WithSquare)
  {
    assert Names([Symbol("x")]) == ["x"];
    assert Interp(SquareLambda, Root, 2) == (Ok(Square), Root);
    assert Bind(Root, "square", Square) == WithSquare;
    assert InterpDefine(DefineSquare.items, Root, 2) == (Ok(Void), Bind(Root, "square", Square));
  }

  lemma BindSquareArgument()
    ensures InterpArgs(["x"], 0, CallSquare.items, Push(WithSquare), 2) == (Ok(Void), InCall)
  {
    assert Push(WithSquare) == [map[], map["square" := Square]];
    assert Interp(Integer(10), Push(WithSquare), 2) == (Ok(Integer(10)), Push(WithSquare));
    assert Bind(Push(WithSquare), "x", Integer(10)) == InCall;
    assert InterpArgs(["x"], 0, CallSquare.items, Push(WithSquare), 2) == InterpArgs(["x"], 1, CallSquare.items, InCall, 2);
  }

  lemma CallSquareStep()
    ensures Interp(CallSquare, WithSquare, 3) == (Ok(Integer(100)), WithSquare)
  {
    BindSquareArgument();
    SquareBodyStep();
    assert Lookup(WithSquare, "square") == Some(Square);
    CallOutcome("square", CallSquare.items, WithSquare, 2);
    assert Pop(InCall) == WithSquare;
    assert InterpCall("square", CallSquare.items, WithSquare, 2) == (Ok(Integer(100)), WithSquare);
    CallSquareDispatch();
  }

  /** `square` is not a special form, so the list is a call. */
  lemma CallSquareDispatch()
    ensures Interp(CallSquare, WithSquare, 3) == InterpCall("square", CallSquare.items, WithSquare, 2)
  {
    var s := "square";
    assert !IsOperator(s) && s != "define" && s != "if" && s != "lambda" by {
      assert s[0] == 's' && "define"[0] == 'd' && "lambda"[0] == 'l';
    }
    CallDispatch(s, CallSquare.items, WithSquare, 3);
  }

  /** A list headed by a symbol that names neither an operator nor a special
      form is a call of that name. */
  lemma CallDispatch(s: string, items: seq<Value>, sc: Scopes<Value>, fuel: nat)
    requires sc != [] && fuel > 0 && items != [] && items[0] == Symbol(s)
    requires !IsOperator(s) && s != "define" && s != "if" && s != "lambda"
    ensures Interp(List(items), sc, fuel) == InterpCall(s, items, sc, fuel - 1)
  {
  }

  lemma SquareBodyStep()
    ensures Interp(List(SquareBody), InCall, 2) == (Ok(Integer(100)), InCall)
  {
    assert Lookup(InCall, "x") == Some(Integer(10));
    assert Interp(Symbol("x"), InCall, 1) == (Ok(Integer(10)), InCall);
  }

  /** A lambda bound by `define` and then called: its parameter is bound in
      a new scope, which is removed again after the call. */
  lemma LambdaExample()
    ensures Interp(List([DefineSquare, CallSquare]), Root, 4) == (Ok(List([Integer(100)])), WithSquare)
  {
    DefineSquareStep();
    CallSquareStep();
    var items := [DefineSquare, CallSquare];
    assert items[1..] == [CallSquare] && items[1..][1..] == [];
    assert InterpEach([CallSquare], [], WithSquare, 3) == (Ok(List([Integer(100)])), WithSquare);
    assert InterpEach(items, [], Root, 3) == InterpEach([CallSquare], [], WithSquare, 3);
  }

  /** A failing argument returns before `remove_scope`: the scope opened for
      the call stays, and later definitions go into it. */
  lemma FailingArgumentExample()
    ensures Interp(List([Symbol("square"), Symbol("z")]), WithSquare, 3) == (Err("Unbound symbol: z"), Push(WithSquare))
  {
    var square := "square";
    var items := [Symbol(square), Symbol("z")];
    assert !IsOperator(square) && square != "define" && square != "if" && square != "lambda" by {
      assert square[0] == 's' && "define"[0] == 'd' && "lambda"[0] == 'l';
    }
    CallDispatch(square, items, WithSquare, 3);
    assert Push(WithSquare)[1..] == WithSquare && WithSquare[1..] == [];
    assert "z" !in WithSquare[0];
    assert Lookup(WithSquare, "z") == Lookup([], "z") == None;
    assert Lookup(Push(WithSquare), "z") == None;
    assert InterpSymbol("z", Push(WithSquare)) == Err("Unbound symbol: " + "z");
    assert "Unbound symbol: " + "z" == "Unbound symbol: z";
    assert Interp(Symbol("z"), Push(WithSquare), 2) == (Err("Unbound symbol: z"), Push(WithSquare));
    assert InterpArgs(["x"], 0, items, Push(WithSquare), 2) == (Err("Unbound symbol: z"), Push(WithSquare));
  }

  const AddY := Lambda([], [Symbol("+"), Symbol("y"), Integer(1)])
  const Caller: Scopes<Value> := [map["f" := AddY, "y" := Integer(41)]]

  /** Scoping is dynamic: a lambda keeps no environment, so its body sees the
      variables of the scope it is called from. */
  lemma DynamicScopeExample()
    ensures Interp(List([Symbol("f")]), Caller, 3) == (Ok(Integer(42)), Caller)
  {
    var f := "f";
    assert !IsOperator(f) && f != "define" && f != "if" && f != "lambda" by {
      assert f[0] == 'f';
    }
    CallDispatch(f, [Symbol(f)], Caller, 3);
    assert InterpArgs([], 0, [Symbol("f")], Push(Caller), 2) == (Ok(Void), Push(Caller));
    assert Push(Caller)[1..] == Caller;
    AddYBodyStep();
    assert Push(Caller)[1..] == Caller;
  }

  /** The body `(+ y 1)` reads `y` from the scope under the call's own. */
  lemma AddYBodyStep()
    ensures Interp(List(AddY.body), Push(Caller), 2) == (Ok(Integer(42)), Push(Caller))
  {
    var sc, items := Push(Caller), AddY.body;
    assert Lookup(sc, "y") == Some(Integer(41));
    BinaryOutcome(items, sc, 1);
    assert Interp(items[1], sc, 1) == (Ok(Integer(41)), sc);
    assert Interp(items[2], sc, 1) == (Ok(Integer(1)), sc);
  }
}
