/** What the `eval_*` methods of risp_eval/src/evaluator/implementation.rs
    compute, stated for every input on the functions of `Semantics`: the
    values of operators, definitions, conditionals, lists and calls, beside
    the shape of the chain of scopes that those functions' own contracts give. */
module SemanticsLaws {
  import opened Wrappers
  import opened Text
  import opened Environment
  import opened Semantics

  // ---------------------------------------------------------------------------
  // `eval_binary_op`

  /** Exactly three elements are required. The left operand is evaluated
      first, then the right one in the chain the left one left; only after
      both have succeeded are their values checked to be integers, and the
      operator is then applied to those integers. */
  lemma BinaryOutcome(items: seq<Value>, sc: Scopes<Value>, fuel: nat)
    requires sc != []
    ensures |items| != 3 ==> InterpBinary(items, sc, fuel) == (Err("Invalid number of arguments for binary operation"), sc)
    ensures |items| == 3 ==>
      var o := InterpBinary(items, sc, fuel);
      var (l, sc1) := Interp(items[1], sc, fuel);
      var (r, sc2) := Interp(items[2], sc1, fuel);
      (!l.Ok? ==> o == (l, sc1)) &&
      (l.Ok? && !r.Ok? ==> o == (r, sc2)) &&
      (l.Ok? && r.Ok? && !l.value.Integer? ==> o == (Err("Left operand must be an integer " + DebugText(l.value)), sc2)) &&
      (l.Ok? && r.Ok? && l.value.Integer? && !r.value.Integer? ==> o == (Err("Right operand must be an integer " + DebugText(r.value)), sc2)) &&
      (o.0.Ok? <==> l.Ok? && r.Ok? && l.value.Integer? && r.value.Integer? && items[0].Symbol?
                    && ApplyOperator(items[0].s, l.value.n, r.value.n).Ok?) &&
      (o.0.Ok? ==> o == (ApplyOperator(items[0].s, l.value.n, r.value.n), sc2))
  {
  }

  /** `(op a b)` on two integer literals is the operator applied to them, and
      changes no scope. */
  lemma LiteralOperands(op: string, a: i64, b: i64, sc: Scopes<Value>, fuel: nat)
    requires sc != [] && fuel > 0
    ensures InterpBinary([Symbol(op), Integer(a), Integer(b)], sc, fuel) == (ApplyOperator(op, a, b), sc)
  {
    var items := [Symbol(op), Integer(a), Integer(b)];
    BinaryOutcome(items, sc, fuel);
    assert Interp(items[1], sc, fuel) == (Ok(Integer(a)), sc);
    assert Interp(items[2], sc, fuel) == (Ok(Integer(b)), sc);
  }

  // ---------------------------------------------------------------------------
  // `eval_define`

  /** A definition needs three elements and a symbol as the second. The value
      is evaluated first; when that fails, its failure is returned. Otherwise
      the result is `Void`, the name reads as the value, every other name
      reads as it did after the value was evaluated, and only the innermost
      scope changed. */
  lemma DefineBinds(items: seq<Value>, sc: Scopes<Value>, fuel: nat)
    requires sc != []
    ensures |items| != 3 ==> InterpDefine(items, sc, fuel) == (Err("Invalid number of arguments for define"), sc)
    ensures |items| == 3 && !items[1].Symbol? ==> InterpDefine(items, sc, fuel) == (Err("Invalid define"), sc)
    ensures |items| == 3 && items[1].Symbol? ==>
      var o := InterpDefine(items, sc, fuel);
      var (r, sc1) := Interp(items[2], sc, fuel);
      (!r.Ok? ==> o == (r, sc1)) &&
      (r.Ok? ==> o.0 == Ok(Void) && o.1[1..] == sc1[1..] && Lookup(o.1, items[1].s) == Some(r.value)) &&
      (r.Ok? ==> forall x :: x != items[1].s ==> Lookup(o.1, x) == Lookup(sc1, x))
  {
    if |items| == 3 && items[1].Symbol? {
      var (r, sc1) := Interp(items[2], sc, fuel);
      if r.Ok? {
        forall x {
          LookupBind(sc1, items[1].s, r.value, x);
        }
      }
    }
  }

  /** After `(define name e)` has succeeded, evaluating `name` gives the value
      of `e` and changes nothing. */
  lemma DefineThenRead(name: string, e: Value, sc: Scopes<Value>, fuel: nat, g: nat)
    requires sc != [] && g > 0
    requires InterpDefine([Symbol("define"), Symbol(name), e], sc, fuel).0.Ok?
    ensures var sc1 := InterpDefine([Symbol("define"), Symbol(name), e], sc, fuel).1;
      Interp(Symbol(name), sc1, g) == (Ok(Interp(e, sc, fuel).0.value), sc1)
  {
    DefineBinds([Symbol("define"), Symbol(name), e], sc, fuel);
  }

  // ---------------------------------------------------------------------------
  // `eval_if`

  /** A conditional needs four elements. The condition is evaluated first and
      must give a boolean; the result is then that of the third element when
      it is `true`, of the fourth when it is `false`, evaluated in the chain
      the condition left. */
  lemma IfChoosesBranch(items: seq<Value>, sc: Scopes<Value>, fuel: nat)
    requires sc != []
    ensures |items| != 4 ==> InterpIf(items, sc, fuel) == (Err("Invalid number of arguments for if"), sc)
    ensures |items| == 4 ==>
      var o := InterpIf(items, sc, fuel);
      var (c, sc1) := Interp(items[1], sc, fuel);
      (!c.Ok? ==> o == (c, sc1)) &&
      (c.Ok? && !c.value.Bool? ==> o == (Err("Invalid condition"), sc1)) &&
      (c.Ok? && c.value.Bool? && c.value.b ==> o == Interp(items[2], sc1, fuel)) &&
      (c.Ok? && c.value.Bool? && !c.value.b ==> o == Interp(items[3], sc1, fuel))
  {
  }

  /** The branch the condition does not choose is never evaluated: replacing
      it by anything changes neither the result nor the scopes. When the
      condition fails or is not a boolean, neither branch is evaluated. */
  lemma IfIgnoresOtherBranch(items: seq<Value>, j: nat, y: Value, sc: Scopes<Value>, fuel: nat)
    requires sc != [] && |items| == 4 && 2 <= j <= 3
    requires var c := Interp(items[1], sc, fuel).0;
      !(c.Ok? && c.value.Bool? && j == (if c.value.b then 2 else 3))
    ensures InterpIf(items[j := y], sc, fuel) == InterpIf(items, sc, fuel)
  {
    var other := items[j := y];
    assert other[1] == items[1];
    assert other[5 - j] == items[5 - j];
  }

  // ---------------------------------------------------------------------------
  // The loop of `eval_list`

  /** Every element evaluated in turn, each in the chain the one before it
      left: the list of all their values, or the first failure. */
  function EvalInOrder(vs: seq<Value>, sc: Scopes<Value>, fuel: nat): (o: Outcome)
    requires sc != []
    ensures o.1 != []
    ensures o.0.Ok? ==> o.0.value.List? && |o.0.value.items| == |vs|
    decreases |vs|
  {
    if vs == [] then (Ok(List([])), sc)
    else
      var (r, sc1) := Interp(vs[0], sc, fuel);
      if !r.Ok? then (r, sc1)
      else
        var (rest, sc2) := EvalInOrder(vs[1..], sc1, fuel);
        if !rest.Ok? then (rest, sc2) else (Ok(List([r.value] + rest.value.items)), sc2)
  }

  /** The values that are not `Void`, in their order. */
  function NonVoid(vs: seq<Value>): (ws: seq<Value>)
    ensures |ws| <= |vs|
    ensures forall i :: 0 <= i < |ws| ==> !ws[i].Void?
  {
    if vs == [] then [] else (if vs[0].Void? then [] else [vs[0]]) + NonVoid(vs[1..])
  }

  /** Dropping the `Void` values of two lists one after the other drops them
      from the joined list; a list without `Void` is kept whole. */
  lemma {:induction false} NonVoidConcat(a: seq<Value>, b: seq<Value>)
    ensures NonVoid(a + b) == NonVoid(a) + NonVoid(b)
    ensures (forall i :: 0 <= i < |a| ==> !a[i].Void?) ==> NonVoid(a) == a
    decreases |a|
  {
    if a != [] {
      assert (a + b)[1..] == a[1..] + b;
      NonVoidConcat(a[1..], b);
    } else {
      assert a + b == b;
    }
  }

  /** The loop of `eval_list` from `rest` on, with the values `acc` collected
      so far, gives the outcome of evaluating `rest` in order, with the list
      `acc` followed by the values that are not `Void` in place of all the
      values. */
  ghost predicate Collects(rest: seq<Value>, acc: seq<Value>, sc: Scopes<Value>, fuel: nat)
    requires sc != []
  {
    var (r, sc1) := EvalInOrder(rest, sc, fuel);
    InterpEach(rest, acc, sc, fuel) == (if r.Ok? then Ok(List(acc + NonVoid(r.value.items))) else r, sc1)
  }

  /** The loop of `eval_list` returns the first failure among the elements,
      evaluated in order, and otherwise the list of the values collected so
      far followed by exactly the element values that are not `Void`, in
      order; either way the chain is the one the elements left. */
  lemma {:induction false} EachCollects(rest: seq<Value>, acc: seq<Value>, sc: Scopes<Value>, fuel: nat)
    requires sc != []
    ensures Collects(rest, acc, sc, fuel)
    decreases |rest|
  {
    if rest == [] {
      assert acc + NonVoid([]) == acc;
    } else {
      var first := Interp(rest[0], sc, fuel);
      if first.0.Ok? {
        var v := first.0.value;
        EachCollects(rest[1..], if v.Void? then acc else acc + [v], first.1, fuel);
        CollectsStep(rest, acc, sc, fuel);
      }
    }
  }

  lemma CollectsStep(rest: seq<Value>, acc: seq<Value>, sc: Scopes<Value>, fuel: nat)
    requires sc != [] && rest != [] && Interp(rest[0], sc, fuel).0.Ok?
    requires var first := Interp(rest[0], sc, fuel);
      Collects(rest[1..], if first.0.value.Void? then acc else acc + [first.0.value], first.1, fuel)
    ensures Collects(rest, acc, sc, fuel)
  {
    var first := Interp(rest[0], sc, fuel);
    var v := first.0.value;
    var next := if v.Void? then acc else acc + [v];
    EachStep(rest, acc, sc, fuel);
    InOrderStep(rest, sc, fuel);
    var tail := EvalInOrder(rest[1..], first.1, fuel);
    if tail.0.Ok? {
      CollectOne(acc, v, tail.0.value.items);
    }
  }

  /** Keeping `v` unless it is `Void`, then the rest without `Void`, is
      keeping the values of `[v] + ws` that are not `Void`. */
  lemma CollectOne(acc: seq<Value>, v: Value, ws: seq<Value>)
    ensures (if v.Void? then acc else acc + [v]) + NonVoid(ws) == acc + NonVoid([v] + ws)
  {
    NonVoidCons(v, ws);
  }

  lemma EachStep(rest: seq<Value>, acc: seq<Value>, sc: Scopes<Value>, fuel: nat)
    requires sc != [] && rest != [] && Interp(rest[0], sc, fuel).0.Ok?
    ensures var first := Interp(rest[0], sc, fuel);
      InterpEach(rest, acc, sc, fuel)
        == InterpEach(rest[1..], if first.0.value.Void? then acc else acc + [first.0.value], first.1, fuel)
  {
  }

  lemma EachFails(rest: seq<Value>, acc: seq<Value>, sc: Scopes<Value>, fuel: nat)
    requires sc != [] && rest != [] && !Interp(rest[0], sc, fuel).0.Ok?
    ensures InterpEach(rest, acc, sc, fuel) == Interp(rest[0], sc, fuel)
  {
  }

  lemma InOrderStep(vs: seq<Value>, sc: Scopes<Value>, fuel: nat)
    requires sc != [] && vs != [] && Interp(vs[0], sc, fuel).0.Ok?
    ensures var first := Interp(vs[0], sc, fuel);
      var tail := EvalInOrder(vs[1..], first.1, fuel);
      EvalInOrder(vs, sc, fuel)
        == (if tail.0.Ok? then Ok(List([first.0.value] + tail.0.value.items)) else tail.0, tail.1)
  {
  }

  lemma NonVoidCons(v: Value, ws: seq<Value>)
    ensures NonVoid([v] + ws) == (if v.Void? then [] else [v]) + NonVoid(ws)
  {
    assert ([v] + ws)[1..] == ws;
  }

  /** A list whose head is not a symbol evaluates every element in order:
      its value is the list of the element values that are not `Void`, or the
      first failure. */
  lemma ListCollects(items: seq<Value>, sc: Scopes<Value>, fuel: nat)
    requires sc != [] && items != [] && !items[0].Symbol?
    ensures var (r, sc1) := EvalInOrder(items, sc, fuel);
      InterpList(items, sc, fuel) == (if r.Ok? then Ok(List(NonVoid(r.value.items))) else r, sc1)
  {
    EachCollects(items, [], sc, fuel);
    assert Collects(items, [], sc, fuel);
    var (r, sc1) := EvalInOrder(items, sc, fuel);
    if r.Ok? {
      assert [] + NonVoid(r.value.items) == NonVoid(r.value.items);
    }
  }

  // ---------------------------------------------------------------------------
  // The chain of scopes

  /** The chain `after` still holds every scope of `before` but the innermost
      one, unchanged and at the same place from the outside, and is at least
      as deep: evaluation only ever changes the innermost scope and opens
      scopes above it, and removes only the scopes it opened. */
  ghost predicate KeepsOuter<V>(after: Scopes<V>, before: Scopes<V>) {
    before != [] && |after| >= |before| && after[|after| - |before| + 1..] == before[1..]
  }


  lemma KeepsOuterTrans<V>(c: Scopes<V>, b: Scopes<V>, a: Scopes<V>)
    requires KeepsOuter(c, b) && KeepsOuter(b, a)
    ensures KeepsOuter(c, a)
  {
    assert c[|c| - |a| + 1..] == c[|c| - |b| + 1..][|b| - |a|..];
  }

  /** Removing the innermost scope of a chain that keeps the outer scopes of
      a freshly pushed chain keeps the outer scopes of the chain pushed on. */
  lemma PopKeepsOuter<V>(sc2: Scopes<V>, sc1: Scopes<V>, sc: Scopes<V>)
    requires sc != [] && KeepsOuter(sc2, sc1) && |sc1| == |sc| + 1 && sc1[1..] == sc
    ensures KeepsOuter(Pop(sc2), sc)
  {
    assert sc2[|sc2| - |sc| + 1..] == sc2[|sc2| - |sc1| + 1..][1..];
  }

  /** Evaluating any object keeps the outer scopes of the chain it started
      in: it changes only the innermost scope, opens scopes above it, and
      removes only the scopes it opened. */
  lemma InterpKeepsOuter(v: Value, sc: Scopes<Value>, fuel: nat)
    requires sc != []
    ensures KeepsOuter(Interp(v, sc, fuel).1, sc)
    decreases fuel, 0
  {
    if fuel > 0 && v.List? {
      ListKeepsOuter(v.items, sc, fuel - 1);
    }
  }

  lemma ListKeepsOuter(items: seq<Value>, sc: Scopes<Value>, fuel: nat)
    requires sc != []
    ensures KeepsOuter(InterpList(items, sc, fuel).1, sc)
    decreases fuel, 2
  {
    if items != [] {
      match items[0]
      case Symbol(s) =>
        if IsOperator(s) {
          BinaryKeepsOuter(items, sc, fuel);
        } else if s == "define" {
          DefineKeepsOuter(items, sc, fuel);
        } else if s == "if" {
          IfKeepsOuter(items, sc, fuel);
        } else if s != "lambda" {
          CallKeepsOuter(s, items, sc, fuel);
        }
      case _ => EachKeepsOuter(items, [], sc, fuel);
    }
  }

  lemma EachKeepsOuter(rest: seq<Value>, acc: seq<Value>, sc: Scopes<Value>, fuel: nat)
    requires sc != []
    ensures KeepsOuter(InterpEach(rest, acc, sc, fuel).1, sc)
    decreases fuel, 1, |rest|
  {
    if rest != [] {
      var (r, sc1) := Interp(rest[0], sc, fuel);
      InterpKeepsOuter(rest[0], sc, fuel);
      if r.Ok? {
        var acc1 := if r.value.Void? then acc else acc + [r.value];
        EachKeepsOuter(rest[1..], acc1, sc1, fuel);
        KeepsOuterTrans(InterpEach(rest[1..], acc1, sc1, fuel).1, sc1, sc);
      }
    }
  }

  lemma BinaryKeepsOuter(items: seq<Value>, sc: Scopes<Value>, fuel: nat)
    requires sc != []
    ensures KeepsOuter(InterpBinary(items, sc, fuel).1, sc)
    decreases fuel, 1
  {
    if |items| == 3 {
      var (l, sc1) := Interp(items[1], sc, fuel);
      InterpKeepsOuter(items[1], sc, fuel);
      if l.Ok? {
        var sc2 := Interp(items[2], sc1, fuel).1;
        InterpKeepsOuter(items[2], sc1, fuel);
        KeepsOuterTrans(sc2, sc1, sc);
      }
    }
  }

  lemma DefineKeepsOuter(items: seq<Value>, sc: Scopes<Value>, fuel: nat)
    requires sc != []
    ensures KeepsOuter(InterpDefine(items, sc, fuel).1, sc)
    decreases fuel, 1
  {
    if |items| == 3 && items[1].Symbol? {
      var (r, sc1) := Interp(items[2], sc, fuel);
      InterpKeepsOuter(items[2], sc, fuel);
      if r.Ok? {
        KeepsOuterTrans(Bind(sc1, items[1].s, r.value), sc1, sc);
      }
    }
  }

  lemma IfKeepsOuter(items: seq<Value>, sc: Scopes<Value>, fuel: nat)
    requires sc != []
    ensures KeepsOuter(InterpIf(items, sc, fuel).1, sc)
    decreases fuel, 1
  {
    if |items| == 4 {
      var (c, sc1) := Interp(items[1], sc, fuel);
      InterpKeepsOuter(items[1], sc, fuel);
      if c.Ok? && c.value.Bool? {
        var branch := items[if c.value.b then 2 else 3];
        InterpKeepsOuter(branch, sc1, fuel);
        KeepsOuterTrans(Interp(branch, sc1, fuel).1, sc1, sc);
      }
    }
  }

  /** A call keeps the outer scopes of its caller's chain whatever happens:
      in particular a failing argument, which leaves the call's own scope
      open, leaves the caller's scopes below it. */
  lemma CallKeepsOuter(name: string, items: seq<Value>, sc: Scopes<Value>, fuel: nat)
    requires sc != []
    ensures KeepsOuter(InterpCall(name, items, sc, fuel).1, sc)
    decreases fuel, 1
  {
    match Lookup(sc, name)
    case None =>
    case Some(f) =>
      if f.Lambda? {
        var (a, sc1) := InterpArgs(f.params, 0, items, Push(sc), fuel);
        ArgsKeepsOuter(f.params, 0, items, Push(sc), fuel);
        if a.Ok? {
          var sc2 := Interp(List(f.body), sc1, fuel).1;
          InterpKeepsOuter(List(f.body), sc1, fuel);
          PopKeepsOuter(sc2, sc1, sc);
        } else {
          KeepsOuterTrans(sc1, Push(sc), sc);
        }
      }
  }

  lemma ArgsKeepsOuter(params: seq<string>, i: nat, items: seq<Value>, sc: Scopes<Value>, fuel: nat)
    requires sc != [] && i <= |params|
    ensures KeepsOuter(InterpArgs(params, i, items, sc, fuel).1, sc)
    decreases fuel, 1, |params| - i
  {
    if i < |params| && i + 1 < |items| {
      var (r, sc1) := Interp(items[i + 1], sc, fuel);
      InterpKeepsOuter(items[i + 1], sc, fuel);
      if r.Ok? {
        var bound := Bind(sc1, params[i], r.value);
        ArgsKeepsOuter(params, i + 1, items, bound, fuel);
        KeepsOuterTrans(InterpArgs(params, i + 1, items, bound, fuel).1, bound, sc1);
        KeepsOuterTrans(InterpArgs(params, i + 1, items, bound, fuel).1, sc1, sc);
      }
    }
  }

  // ---------------------------------------------------------------------------
  // `eval_func_call`

  /** A call looks its name up: an unbound name and a name bound to anything
      but a lambda are errors. For a lambda, the arguments are bound in a
      new scope; a failing argument is returned with that scope still open,
      and otherwise the body's outcome is returned, whether it failed or not,
      with the innermost scope of the chain the body left removed. */
  lemma CallOutcome(name: string, items: seq<Value>, sc: Scopes<Value>, fuel: nat)
    requires sc != []
    ensures Lookup(sc, name).None? ==> InterpCall(name, items, sc, fuel) == (Err("Function not found: " + name), sc)
    ensures Lookup(sc, name).Some? && !Lookup(sc, name).value.Lambda? ==>
      InterpCall(name, items, sc, fuel) == (Err("Not a lambda: " + name), sc)
    ensures Lookup(sc, name).Some? && Lookup(sc, name).value.Lambda? ==>
      var f := Lookup(sc, name).value;
      var o := InterpCall(name, items, sc, fuel);
      var (a, sc1) := InterpArgs(f.params, 0, items, Push(sc), fuel);
      (!a.Ok? ==> o == (a, sc1)) &&
      (a.Ok? ==> sc1[1..] == sc && o == (Interp(List(f.body), sc1, fuel).0, Pop(Interp(List(f.body), sc1, fuel).1)))
  {
  }

  /** A failing argument returns before `remove_scope`: the result is the
      failure, and the caller's whole chain lies intact under at least the
      scope the call opened. */
  lemma FailingArgumentLeavesScope(name: string, items: seq<Value>, sc: Scopes<Value>, fuel: nat)
    requires sc != [] && Lookup(sc, name).Some? && Lookup(sc, name).value.Lambda?
    requires !InterpArgs(Lookup(sc, name).value.params, 0, items, Push(sc), fuel).0.Ok?
    ensures var o := InterpCall(name, items, sc, fuel);
      !o.0.Ok? && |o.1| > |sc| && o.1[|o.1| - |sc|..] == sc
  {
    var f := Lookup(sc, name).value;
    var (a, sc1) := InterpArgs(f.params, 0, items, Push(sc), fuel);
    ArgsKeepsOuter(f.params, 0, items, Push(sc), fuel);
    KeepsOuterTrans(sc1, Push(sc), sc);
    assert sc1[|sc1| - |sc|..] == Push(sc)[1..];
  }

  /** A failing body still has the call's scope removed: the failure is
      returned, and the chain is the one the body left, less its innermost
      scope. */
  lemma FailingBodyRemovesScope(name: string, items: seq<Value>, sc: Scopes<Value>, fuel: nat)
    requires sc != [] && Lookup(sc, name).Some? && Lookup(sc, name).value.Lambda?
    requires InterpArgs(Lookup(sc, name).value.params, 0, items, Push(sc), fuel).0.Ok?
    ensures var f := Lookup(sc, name).value;
      var sc1 := InterpArgs(f.params, 0, items, Push(sc), fuel).1;
      var (r, sc2) := Interp(List(f.body), sc1, fuel);
      InterpCall(name, items, sc, fuel) == (r, sc2[1..]) && |sc2| > |sc|
  {
    var f := Lookup(sc, name).value;
    var sc1 := InterpArgs(f.params, 0, items, Push(sc), fuel).1;
    var (r, sc2) := Interp(List(f.body), sc1, fuel);
    InterpKeepsOuter(List(f.body), sc1, fuel);
  }

  /** When every argument is an atom (not a list) that evaluates without
      error, and no argument is a symbol naming a parameter, the loop that
      binds the parameters succeeds and binds each parameter, in the
      innermost scope, to the value of the argument after it in the call; a
      parameter named again later takes the later argument. Every other name
      keeps its meaning, and the outer scopes do not change. */
  lemma {:induction false} ArgsBind(params: seq<string>, i: nat, items: seq<Value>, sc: Scopes<Value>, fuel: nat)
    requires sc != [] && i <= |params| < |items|
    requires forall k :: i < k <= |params| ==> !items[k].List? && Interp(items[k], sc, fuel).0.Ok?
    requires forall k :: i < k <= |params| && items[k].Symbol? ==> items[k].s !in params
    ensures var o := InterpArgs(params, i, items, sc, fuel);
      o.0 == Ok(Void) && |o.1| == |sc| && o.1[1..] == sc[1..] &&
      (forall j :: i <= j < |params| && params[j] !in params[j + 1..] ==>
         Lookup(o.1, params[j]) == Some(Interp(items[j + 1], sc, fuel).0.value)) &&
      (forall x :: x !in params[i..] ==> Lookup(o.1, x) == Lookup(sc, x))
    decreases |params| - i
  {
    if i < |params| {
      var v := Interp(items[i + 1], sc, fuel).0.value;
      var bound := Bind(sc, params[i], v);
      forall k | i + 1 < k <= |params|
        ensures Interp(items[k], bound, fuel) == (Interp(items[k], sc, fuel).0, bound)
      {
        if items[k].Symbol? {
          LookupBind(sc, params[i], v, items[k].s);
        }
      }
      ArgsBind(params, i + 1, items, bound, fuel);
      var o := InterpArgs(params, i + 1, items, bound, fuel);
      assert InterpArgs(params, i, items, sc, fuel) == o;
      assert params[i..] == [params[i]] + params[i + 1..];
      forall x | x !in params[i..]
        ensures Lookup(o.1, x) == Lookup(sc, x)
      {
        LookupBind(sc, params[i], v, x);
      }
      forall j | i <= j < |params| && params[j] !in params[j + 1..]
        ensures Lookup(o.1, params[j]) == Some(Interp(items[j + 1], sc, fuel).0.value)
      {
        if j == i {
          LookupBind(sc, params[i], v, params[i]);
        }
      }
    }
  }
}
