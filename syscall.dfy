/** `SysCallWrapper` of risp_eval/src/evaluator/stdlib/sys_call.rs: a host
    function registered under a name. Wrappers are compared and printed by
    their name alone; running one applies its function to the arguments. */
module SysCalls {
  import opened Wrappers
  import opened Objects
  import Stdlib

  /** `SysCallWrapper::new`. */
  function New(name: string, func: Native): (w: SysCallWrapper)
    ensures w.name == name && w.func == func
  {
    SysCallWrapper(name, func)
  }

  /** `PartialEq for SysCallWrapper`: only the names are compared. */
  predicate Eq(a: SysCallWrapper, b: SysCallWrapper) {
    a.name == b.name
  }

  /** `Debug for SysCallWrapper`: `<std::` and the name, then `>`. */
  function DebugText(w: SysCallWrapper): (t: string)
    ensures |t| == |w.name| + 7
    ensures t[..6] == "<std::" && t[6..|t| - 1] == w.name && t[|t| - 1] == '>'
  {
    "<std::" + w.name + ">"
  }

  /** `run`: the registered function applied to the arguments. */
  function Run(w: SysCallWrapper, args: seq<Object>): (r: Result<Object, string>)
    ensures w.func == Native.ToStr ==> r == Stdlib.ToStr(args)
    ensures w.func == Native.ListTakeFirst ==> r == Stdlib.ListTakeFirst(args)
    ensures w.func == Native.ConcatStr ==> r == Stdlib.Concatenation(args)
  {
    match w.func
    case ToStr => Stdlib.ToStr(args)
    case ConcatStr => Stdlib.Concatenation(args)
    case ListTakeFirst => Stdlib.ListTakeFirst(args)
  }

  /** The comparison is an equivalence, and two wrappers print the same
      exactly when they compare equal. */
  lemma EqIsEquivalence(a: SysCallWrapper, b: SysCallWrapper, c: SysCallWrapper)
    ensures Eq(a, a)
    ensures Eq(a, b) ==> Eq(b, a)
    ensures Eq(a, b) && Eq(b, c) ==> Eq(a, c)
    ensures Eq(a, b) <==> DebugText(a) == DebugText(b)
  {
    if DebugText(a) == DebugText(b) {
      assert a.name == DebugText(a)[6..|DebugText(a)| - 1];
    }
  }

  /** Wrappers made under the same name compare equal whatever their
      functions, so equal wrappers can still run differently. */
  lemma EqIgnoresFunction()
    ensures Eq(New("test", Native.ToStr), New("test", Native.ListTakeFirst))
    ensures Run(New("test", Native.ToStr), [Objects.String("a")]) != Run(New("test", Native.ListTakeFirst), [Objects.String("a")])
  {
    var arg := Objects.String("a");
    assert Stdlib.ToStr([arg]).Ok?;
    assert !Stdlib.ListTakeFirst([arg]).Ok?;
  }

  /** A new wrapper compares equal to another new wrapper exactly when the
      two are made under the same name, and prints its name whatever its
      function. */
  lemma NewComparesByName(n: string, m: string, f: Native, g: Native)
    ensures Eq(New(n, f), New(m, g)) <==> n == m
    ensures DebugText(New(n, f)) == DebugText(New(n, g))
  {
  }

  /** What a wrapper runs depends on its function alone: wrappers holding
      the same function give the same result on the same arguments, whatever
      their names. */
  lemma RunIgnoresName(a: SysCallWrapper, b: SysCallWrapper, args: seq<Object>)
    requires a.func == b.func
    ensures Run(a, args) == Run(b, args)
  {
  }

  /** The wrapper of the `Debug` test prints as `<std::test>`. */
  lemma DebugExample()
    ensures DebugText(New("test", Native.ToStr)) == "<std::test>"
  {
  }
}
