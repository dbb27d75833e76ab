/** The `Evaluator` of risp_eval/src/evaluator/implementation.rs: an object
    holding the current environment, whose `eval_*` methods walk an object
    tree, reading and changing that environment as they go. Every method is
    proved to return, and to leave the environment's chain of scopes in, what
    the matching function of `Semantics` says. */
module Evaluation {
  import opened Wrappers
  import opened Text
  import opened Environment
  import opened Semantics
  import opened SemanticsLaws

  class Evaluator {
    var env: Env<Value>

    ghost predicate Valid()
      reads this, env, env.Repr
    {
      env.Valid() && this !in env.Repr
    }

    /** `Evaluator::new`. */
    constructor (env: Env<Value>)
      requires env.Valid()
      ensures Valid() && this.env == env
    {
      this.env := env;
    }

    /** `eval_obj`. */
    method EvalObj(obj: Value, fuel: nat) returns (r: Result<Value, string>)
      requires Valid()
      modifies this, env.Repr
      ensures Valid() && fresh(env.Repr - old(env.Repr))
      ensures (r, env.Scopes()) == Interp(obj, old(env.Scopes()), fuel)
      decreases fuel, 0
    {
      if fuel == 0 {
        return Panic(StackOverflow);
      }
      match obj {
        case List(items) => r := EvalList(items, fuel - 1);
        case Void => r := Ok(Void);
        case Lambda(_, _) => r := Ok(Void);
        case Bool(_) => r := Ok(obj);
        case Integer(n) => r := Ok(Integer(n));
        case Symbol(s) => r := EvalSymbol(s);
      }
    }

    /** `eval_list`. */
    method EvalList(items: seq<Value>, fuel: nat) returns (r: Result<Value, string>)
      requires Valid()
      modifies this, env.Repr
      ensures Valid() && fresh(env.Repr - old(env.Repr))
      ensures (r, env.Scopes()) == InterpList(items, old(env.Scopes()), fuel)
      decreases fuel, 2
    {
      if |items| == 0 {
        return Panic(IndexPanic(0, 0));
      }
      ghost var sc := env.Scopes();
      match items[0] {
        case Symbol(s) =>
          if IsOperator(s) {
            assert InterpList(items, sc, fuel) == InterpBinary(items, sc, fuel);
            r := EvalBinaryOp(items, fuel);
          } else if s == "define" {
            assert InterpList(items, sc, fuel) == InterpDefine(items, sc, fuel);
            r := EvalDefine(items, fuel);
          } else if s == "if" {
            assert InterpList(items, sc, fuel) == InterpIf(items, sc, fuel);
            r := EvalIf(items, fuel);
          } else if s == "lambda" {
            assert InterpList(items, sc, fuel) == (LambdaOf(items), sc);
            r := EvalLambda(items);
          } else {
            assert InterpList(items, sc, fuel) == InterpCall(s, items, sc, fuel);
            r := EvalFuncCall(s, items, fuel);
          }
        case _ =>
          assert InterpList(items, sc, fuel) == InterpEach(items, [], sc, fuel);
          r := EvalElements(items, fuel);
      }
    }

    /** The loop of `eval_list` for a list whose head is not a symbol: every
        element is evaluated in turn, and the results that are not `Void` are
        collected. */
    method EvalElements(items: seq<Value>, fuel: nat) returns (r: Result<Value, string>)
      requires Valid()
      modifies this, env.Repr
      ensures Valid() && fresh(env.Repr - old(env.Repr))
      ensures (r, env.Scopes()) == InterpEach(items, [], old(env.Scopes()), fuel)
      decreases fuel, 1
    {
      var newList: seq<Value> := [];
      var i := 0;
      while i < |items|
        invariant Valid() && fresh(env.Repr - old(env.Repr))
        invariant 0 <= i <= |items|
        invariant InterpEach(items, [], old(env.Scopes()), fuel) == InterpEach(items[i..], newList, env.Scopes(), fuel)
        decreases |items| - i
      {
        assert items[i..][1..] == items[i + 1..];
        ghost var sc := env.Scopes();
        var result := EvalObj(items[i], fuel);
        if !result.Ok? {
          EachFails(items[i..], newList, sc, fuel);
          return result;
        }
        EachStep(items[i..], newList, sc, fuel);
        if !result.value.Void? {
          newList := newList + [result.value];
        }
        i := i + 1;
      }
      r := Ok(List(newList));
    }

    /** `eval_symbol`. */
    method EvalSymbol(symbol: string) returns (r: Result<Value, string>)
      requires Valid()
      ensures r == InterpSymbol(symbol, env.Scopes())
    {
      var valOpt := env.Get(symbol);
      match valOpt {
        case Some(val) => r := Ok(val);
        case None => r := Err("Unbound symbol: " + symbol);
      }
    }

    /** `eval_binary_op`. */
    method EvalBinaryOp(list: seq<Value>, fuel: nat) returns (r: Result<Value, string>)
      requires Valid()
      modifies this, env.Repr
      ensures Valid() && fresh(env.Repr - old(env.Repr))
      ensures (r, env.Scopes()) == InterpBinary(list, old(env.Scopes()), fuel)
      decreases fuel, 1
    {
      if |list| != 3 {
        return Err("Invalid number of arguments for binary operation");
      }
      var operator := list[0];
      var left := EvalObj(list[1], fuel);
      if !left.Ok? {
        return left;
      }
      var right := EvalObj(list[2], fuel);
      if !right.Ok? {
        return right;
      }
      if !left.value.Integer? {
        return Err("Left operand must be an integer " + DebugText(left.value));
      }
      if !right.value.Integer? {
        return Err("Right operand must be an integer " + DebugText(right.value));
      }
      match operator {
        case Symbol(s) => r := ApplyOperator(s, left.value.n, right.value.n);
        case _ => r := Err("Operator must be a symbol");
      }
    }

    /** `eval_define`. */
    method EvalDefine(list: seq<Value>, fuel: nat) returns (r: Result<Value, string>)
      requires Valid()
      modifies this, env.Repr
      ensures Valid() && fresh(env.Repr - old(env.Repr))
      ensures (r, env.Scopes()) == InterpDefine(list, old(env.Scopes()), fuel)
      decreases fuel, 1
    {
      if |list| != 3 {
        return Err("Invalid number of arguments for define");
      }
      if !list[1].Symbol? {
        return Err("Invalid define");
      }
      var sym := list[1].s;
      var val := EvalObj(list[2], fuel);
      if !val.Ok? {
        return val;
      }
      env.Set(sym, val.value);
      return Ok(Void);
    }

    /** `eval_if`. */
    method EvalIf(list: seq<Value>, fuel: nat) returns (r: Result<Value, string>)
      requires Valid()
      modifies this, env.Repr
      ensures Valid() && fresh(env.Repr - old(env.Repr))
      ensures (r, env.Scopes()) == InterpIf(list, old(env.Scopes()), fuel)
      decreases fuel, 1
    {
      if |list| != 4 {
        return Err("Invalid number of arguments for if");
      }
      var condObj := EvalObj(list[1], fuel);
      if !condObj.Ok? {
        return condObj;
      }
      if !condObj.value.Bool? {
        return Err("Invalid condition");
      }
      var returnIdx := if condObj.value.b then 2 else 3;
      r := EvalObj(list[returnIdx], fuel);
    }

    /** `eval_lambda`: collect the parameter names, failing at the first
        element that is not a symbol. */
    method EvalLambda(list: seq<Value>) returns (r: Result<Value, string>)
      ensures r == LambdaOf(list)
    {
      if |list| < 2 {
        return Panic(IndexPanic(|list|, 1));
      }
      var params: seq<string> := [];
      match list[1] {
        case List(ps) =>
          var i := 0;
          while i < |ps|
            invariant 0 <= i <= |ps|
            invariant AllSymbols(ps[..i]) && params == Names(ps[..i])
          {
            match ps[i] {
              case Symbol(s) => params := params + [s];
              case _ => return Err("Invalid lambda parameter");
            }
            assert ps[..i + 1] == ps[..i] + [ps[i]];
            i := i + 1;
          }
          assert ps[..i] == ps;
        case _ => return Err("Invalid lambda");
      }
      if |list| < 3 {
        return Panic(IndexPanic(|list|, 2));
      }
      match list[2] {
        case List(body) => r := Ok(Lambda(params, body));
        case _ => r := Err("Invalid lambda");
      }
    }

    /** `eval_func_call`: the environment is replaced by a new scope below
        it; after the body it takes its parent's place again. */
    method EvalFuncCall(funcName: string, list: seq<Value>, fuel: nat) returns (r: Result<Value, string>)
      requires Valid()
      modifies this, env.Repr
      ensures Valid() && fresh(env.Repr - old(env.Repr))
      ensures (r, env.Scopes()) == InterpCall(funcName, list, old(env.Scopes()), fuel)
      decreases fuel, 1
    {
      ghost var sc := env.Scopes();
      CallOutcome(funcName, list, sc, fuel);
      var lambda := env.Get(funcName);
      if lambda.None? {
        return Err("Function not found: " + funcName);
      }
      var func := lambda.value;
      if !func.Lambda? {
        return Err("Not a lambda: " + funcName);
      }
      var params, body := func.params, func.body;
      var bound := EvalArgs(params, list, fuel);
      if !bound.Ok? {
        return bound;
      }
      r := EvalBody(body, fuel);
    }

    /** The start of `eval_func_call`: a new scope is opened below the
        environment, and the arguments are bound in it. */
    method EvalArgs(params: seq<string>, list: seq<Value>, fuel: nat) returns (r: Result<Value, string>)
      requires Valid()
      modifies this, env.Repr
      ensures Valid() && fresh(env.Repr - old(env.Repr))
      ensures (r, env.Scopes()) == InterpArgs(params, 0, list, Push(old(env.Scopes())), fuel)
      decreases fuel, 1, |params| + 2
    {
      env := new Env<Value>.NewScope(env);
      r := BindArguments(params, list, fuel);
    }

    /** The end of `eval_func_call`: the body is evaluated, the call's scope
        removed, and the body's outcome returned, whether it failed or not. */
    method EvalBody(body: seq<Value>, fuel: nat) returns (r: Result<Value, string>)
      requires Valid()
      modifies this, env.Repr
      ensures Valid() && fresh(env.Repr - old(env.Repr))
      ensures var (b, sc2) := Interp(List(body), old(env.Scopes()), fuel);
        (r, env.Scopes()) == (b, Pop(sc2))
      decreases fuel, 1, 0
    {
      r := EvalObj(List(body), fuel);
      env.RemoveScope();
    }

    /** The loop of `eval_func_call`: argument `i + 1` of the call is
        evaluated and bound to parameter `i` in the innermost scope. */
    method BindArguments(params: seq<string>, list: seq<Value>, fuel: nat) returns (r: Result<Value, string>)
      requires Valid()
      modifies this, env.Repr
      ensures Valid() && fresh(env.Repr - old(env.Repr))
      ensures (r, env.Scopes()) == InterpArgs(params, 0, list, old(env.Scopes()), fuel)
      decreases fuel, 1, |params| + 1
    {
      var i := 0;
      ghost var goal := InterpArgs(params, 0, list, env.Scopes(), fuel);
      while i < |params|
        invariant Valid() && fresh(env.Repr - old(env.Repr))
        invariant 0 <= i <= |params|
        invariant goal == InterpArgs(params, i, list, env.Scopes(), fuel)
        decreases |params| - i
      {
        r := BindArgument(params, i, list, fuel);
        if !r.Ok? {
          return;
        }
        i := i + 1;
      }
      return Ok(Void);
    }

    /** One turn of the loop of `eval_func_call` that binds the parameters:
        the argument after the `i`-th one is evaluated and bound to the
        `i`-th parameter in the innermost scope. */
    method BindArgument(params: seq<string>, i: nat, list: seq<Value>, fuel: nat) returns (r: Result<Value, string>)
      requires Valid() && i < |params|
      modifies this, env.Repr
      ensures Valid() && fresh(env.Repr - old(env.Repr))
      ensures r.Ok? ==> r == Ok(Void)
      ensures InterpArgs(params, i, list, old(env.Scopes()), fuel)
        == if r.Ok? then InterpArgs(params, i + 1, list, env.Scopes(), fuel) else (r, env.Scopes())
      decreases fuel, 1, |params| - i
    {
      if i + 1 >= |list| {
        return Panic(IndexPanic(|list|, i + 1));
      }
      var val := EvalObj(list[i + 1], fuel);
      if !val.Ok? {
        return val;
      }
      env.Set(params[i], val.value);
      return Ok(Void);
    }
  }
}
