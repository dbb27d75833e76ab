/** The variable environment of src/env/implementation.rs: a scope of
    variables with an optional parent scope. Lookups fall back to the parent;
    definitions always go into the innermost scope.

    The chain of scopes is given as a value first (`Scopes`, innermost first)
    and the operations on it are proved against each other; the class `Env`
    then keeps that value as its abstraction. */
module Environment {
  import opened Wrappers

  /** A chain of scopes, innermost first. */
  type Scopes<V> = seq<map<string, V>>

  /** `get`: the binding in the innermost scope that has one. */
  function Lookup<V>(sc: Scopes<V>, name: string): Option<V> {
    if sc == [] then None
    else if name in sc[0] then Some(sc[0][name])
    else Lookup(sc[1..], name)
  }

  /** `set`: insert into the innermost scope, replacing a binding there. */
  function Bind<V>(sc: Scopes<V>, name: string, value: V): (r: Scopes<V>)
    requires sc != []
    ensures |r| == |sc| && r[1..] == sc[1..]
    ensures r[0].Keys == sc[0].Keys + {name}
  {
    [sc[0][name := value]] + sc[1..]
  }

  /** `new_scope`: an empty scope whose parent is the given chain. */
  function Push<V>(sc: Scopes<V>): (r: Scopes<V>)
    ensures |r| == |sc| + 1 && r[0] == map[] && r[1..] == sc
  {
    [map[]] + sc
  }

  /** `remove_scope`: the scope takes over its parent's variables and parent;
      without a parent it is emptied. */
  function Pop<V>(sc: Scopes<V>): (r: Scopes<V>)
    ensures |r| >= 1
    ensures |sc| > 1 ==> r == sc[1..]
    ensures |sc| <= 1 ==> r == [map[]]
  {
    if |sc| <= 1 then [map[]] else sc[1..]
  }

  /** A lookup finds a name exactly when some scope binds it, and then
      returns the binding of the innermost such scope. */
  lemma {:induction false} LookupInnermost<V>(sc: Scopes<V>, name: string, k: nat)
    requires k < |sc| && name in sc[k]
    requires forall j :: 0 <= j < k ==> name !in sc[j]
    ensures Lookup(sc, name) == Some(sc[k][name])
  {
    if k > 0 {
      LookupInnermost(sc[1..], name, k - 1);
    }
  }

  lemma {:induction false} LookupMissing<V>(sc: Scopes<V>, name: string)
    requires forall j :: 0 <= j < |sc| ==> name !in sc[j]
    ensures Lookup(sc, name) == None
  {
    if sc != [] {
      LookupMissing(sc[1..], name);
    }
  }

  /** After `set`, the name reads back as the value, and every other name
      reads as before. */
  lemma LookupBind<V>(sc: Scopes<V>, name: string, value: V, other: string)
    requires sc != []
    ensures Lookup(Bind(sc, name, value), name) == Some(value)
    ensures other != name ==> Lookup(Bind(sc, name, value), other) == Lookup(sc, other)
  {
    var r := Bind(sc, name, value);
    assert r[1..] == sc[1..];
  }

  /** A new scope sees every variable of its parent. */
  lemma LookupPush<V>(sc: Scopes<V>, name: string)
    ensures Lookup(Push(sc), name) == Lookup(sc, name)
  {
    assert Push(sc)[1..] == sc;
  }

  /** A variable set in a child scope shadows the parent's binding, and the
      parent's binding is back once the child scope is removed. */
  lemma Shadowing<V>(sc: Scopes<V>, name: string, value: V)
    requires sc != []
    ensures Lookup(Bind(Push(sc), name, value), name) == Some(value)
    ensures Lookup(Pop(Bind(Push(sc), name, value)), name) == Lookup(sc, name)
    ensures Pop(Bind(Push(sc), name, value)) == sc
  {
    LookupBind(Push(sc), name, value, name);
  }

  /** Removing the root scope forgets every variable. */
  lemma PopRoot<V>(sc: Scopes<V>, name: string)
    requires |sc| <= 1
    ensures Lookup(Pop(sc), name) == None
  {
  }

  /** `Env`: a scope's own variables and its parent. */
  class Env<V> {
    var vars: map<string, V>
    var parent: Env?<V>
    ghost var Repr: set<object>

    /** The parent chain is finite and never leads back to this scope. */
    ghost predicate Valid()
      reads this, Repr
      decreases Repr
    {
      this in Repr &&
      (parent != null ==>
        parent in Repr && parent.Repr <= Repr && this !in parent.Repr && parent.Valid())
    }

    /** The chain of scopes starting at this one. */
    ghost function Scopes(): (sc: Scopes<V>)
      reads this, Repr
      requires Valid()
      ensures |sc| >= 1 && sc[0] == vars
      decreases Repr
    {
      [vars] + (if parent == null then [] else parent.Scopes())
    }

    /** `new`: a root scope without variables. */
    constructor ()
      ensures Valid() && fresh(Repr) && Scopes() == [map[]]
    {
      vars := map[];
      parent := null;
      Repr := {this};
    }

    /** `new_scope`: an empty scope below `parent`. */
    constructor NewScope(parent: Env<V>)
      requires parent.Valid()
      ensures Valid() && Repr == {this} + parent.Repr
      ensures Scopes() == Push(parent.Scopes())
    {
      vars := map[];
      this.parent := parent;
      Repr := {this} + parent.Repr;
    }

    /** `remove_scope`: this object takes over its parent's variables and
        parent, so that it now stands for the parent's chain. */
    method RemoveScope()
      requires Valid()
      modifies this
      ensures Valid() && Repr <= old(Repr)
      ensures Scopes() == Pop(old(Scopes()))
    {
      if parent != null {
        var p := parent;
        assert p.parent != null ==> this !in p.parent.Repr && p.parent.Valid();
        vars := p.vars;
        parent := p.parent;
        Repr := if p.parent == null then {this} else {this} + p.parent.Repr;
      } else {
        vars := map[];
        parent := null;
      }
    }

    /** `get`: this scope's binding, or else the parent's. */
    function Get(name: string): (r: Option<V>)
      reads this, Repr
      requires Valid()
      ensures r == Lookup(Scopes(), name)
      decreases Repr
    {
      if name in vars then Some(vars[name])
      else if parent == null then None
      else parent.Get(name)
    }

    /** `set`: bind in this scope; the parent is not touched. */
    method Set(name: string, value: V)
      requires Valid()
      modifies this
      ensures Valid() && Repr == old(Repr) && parent == old(parent)
      ensures Scopes() == Bind(old(Scopes()), name, value)
    {
      vars := vars[name := value];
    }
  }

  /** The scenario of the environment tests: a variable of the parent is
      visible from a child scope without being one of the child's own, the
      child's own variable is visible too, and removing the root scope
      forgets everything. */
  method ParentScenario() returns (own: bool, inherited: Option<int>, local: Option<int>, afterRemove: Option<int>)
    ensures !own && inherited == Some(10) && local == Some(20) && afterRemove == None
  {
    var root := new Env<int>();
    root.Set("x", 10);
    var child := new Env<int>.NewScope(root);
    child.Set("y", 20);
    own := "x" in child.vars;
    inherited := child.Get("x");
    local := child.Get("y");
    root.RemoveScope();
    afterRemove := root.Get("x");
  }
}
