/** The library functions of risp/src/evaluator/stdlib/funcs.rs. Each takes
    the argument vector of a call and returns an object or an error message. */
module Stdlib {
  import opened Wrappers
  import opened Text
  import opened Objects

  function ArgumentCount(n: nat): string {
    "Expected 1 argument, found " + Digits(n)
  }

  /** `to_str_obj`: strings are kept, integers are written in decimal, and
      anything else is refused, naming the argument as `Display` writes it. */
  function ToStrObj(obj: Object): (r: Result<Object, string>)
    ensures r.Ok? <==> obj.String? || obj.Integer?
    ensures obj.String? ==> r == Ok(obj)
    ensures obj.Integer? ==> r == Ok(String(Decimal(obj.n)))
    ensures obj.Integer? ==> r.Ok? && r.value.String? && ParseI64(r.value.s) == Some(obj.n)
    ensures !r.Ok? ==> r == Err("Invalid argument '" + Display(obj) + "', cannot convert to str")
  {
    match obj
    case String(_) => Ok(obj)
    case Integer(i) =>
      DecimalRoundTrip(i);
      Ok(String(Decimal(i)))
    case _ => Err("Invalid argument '" + Display(obj) + "', cannot convert to str")
  }

  /** `to_str`: exactly one argument, converted by `to_str_obj`. */
  function ToStr(objs: seq<Object>): (r: Result<Object, string>)
    ensures |objs| != 1 ==> r == Err(ArgumentCount(|objs|))
    ensures |objs| == 1 ==> r == ToStrObj(objs[0])
  {
    if |objs| == 1 then ToStrObj(objs[0]) else Err(ArgumentCount(|objs|))
  }

  /** Converting the result again changes nothing. */
  lemma ToStrIdempotent(obj: Object)
    requires ToStr([obj]).Ok?
    ensures ToStr([ToStr([obj]).value]) == ToStr([obj])
  {
  }

  predicate AllStrings(objs: seq<Object>) {
    forall i :: 0 <= i < |objs| ==> objs[i].String?
  }

  /** The texts of a sequence of strings, one after another. */
  function Joined(objs: seq<Object>): string
    requires AllStrings(objs)
  {
    if objs == [] then "" else objs[0].s + Joined(objs[1..])
  }

  /** The index of the first argument that is not a string. */
  function FirstNonString(objs: seq<Object>): (k: nat)
    requires !AllStrings(objs)
    ensures k < |objs| && !objs[k].String? && AllStrings(objs[..k])
  {
    if !objs[0].String? then 0
    else
      assert !AllStrings(objs[1..]) by {
        var j :| 0 <= j < |objs| && !objs[j].String?;
        assert objs[1..][j - 1] == objs[j];
      }
      var k := FirstNonString(objs[1..]) + 1;
      assert objs[..k] == [objs[0]] + objs[1..][..k - 1];
      k
  }

  /** What `concat_str` returns: at least one argument is required, and the
      texts of the arguments are concatenated when all of them are strings;
      otherwise the first argument that is not a string is named. */
  function Concatenation(objs: seq<Object>): Result<Object, string> {
    if objs == [] then Err("Expected at least 1 argument, found 0")
    else if AllStrings(objs) then Ok(String(Joined(objs)))
    else Err("Expected String, found " + Display(objs[FirstNonString(objs)]))
  }

  lemma {:induction false} JoinedAppend(a: seq<Object>, b: seq<Object>)
    requires AllStrings(a) && AllStrings(b)
    ensures AllStrings(a + b) && Joined(a + b) == Joined(a) + Joined(b)
  {
    if a != [] {
      assert (a + b)[1..] == a[1..] + b;
      JoinedAppend(a[1..], b);
    } else {
      assert a + b == b;
    }
  }

  /** `concat_str`: the loop appends each string argument to the result and
      stops at the first argument that is not a string. */
  method ConcatStr(objs: seq<Object>) returns (r: Result<Object, string>)
    ensures r == Concatenation(objs)
  {
    if |objs| == 0 {
      return Err("Expected at least 1 argument, found 0");
    }
    var result := "";
    var i := 0;
    while i < |objs|
      invariant 0 <= i <= |objs|
      invariant AllStrings(objs[..i]) && result == Joined(objs[..i])
    {
      match objs[i] {
        case String(s) =>
          JoinedAppend(objs[..i], [objs[i]]);
          assert objs[..i + 1] == objs[..i] + [objs[i]];
          result := result + s;
        case _ =>
          assert FirstNonString(objs) == i by {
            var k := FirstNonString(objs);
          }
          return Err("Expected String, found " + Display(objs[i]));
      }
      i := i + 1;
    }
    assert objs[..i] == objs;
    return Ok(String(result));
  }

  /** Concatenating in two steps gives the same string as one step:
      `concat_str` of a prefix, followed by the remaining arguments. */
  lemma ConcatenationInSteps(a: seq<Object>, b: seq<Object>)
    requires a != [] && AllStrings(a) && AllStrings(b)
    ensures Concatenation([Concatenation(a).value] + b) == Concatenation(a + b)
  {
    JoinedAppend(a, b);
    var first := String(Joined(a));
    JoinedAppend([first], b);
    assert Joined([first]) == Joined(a) by {
      assert [first][1..] == [];
    }
  }

  /** `list_take_first`: exactly one argument, a non-empty list, whose first
      element is returned. */
  function ListTakeFirst(objs: seq<Object>): (r: Result<Object, string>)
    ensures r.Ok? <==> |objs| == 1 && objs[0].List? && objs[0].items != []
    ensures r.Ok? ==> r.value == objs[0].items[0]
    ensures |objs| != 1 ==> r == Err(ArgumentCount(|objs|))
    ensures |objs| == 1 && objs[0].List? && objs[0].items == [] ==> r == Err("Cannot take first element of empty list")
    ensures |objs| == 1 && !objs[0].List? ==> r == Err("Expected List, found " + Display(objs[0]))
  {
    if |objs| == 1 then
      match objs[0]
      case List(list) =>
        if |list| == 0 then Err("Cannot take first element of empty list") else Ok(list[0])
      case _ => Err("Expected List, found " + Display(objs[0]))
    else Err(ArgumentCount(|objs|))
  }

  // ---------------------------------------------------------------------------
  // The cases of the library tests

  lemma ToStrExamples()
    ensures ToStr([String("Hello")]) == Ok(String("Hello"))
    ensures ToStr([Integer(10)]) == Ok(String("10"))
  {
    assert Decimal(10) == "10";
  }

  lemma ToStrCountExamples()
    ensures ToStr([]) == Err("Expected 1 argument, found 0")
    ensures ToStr([Integer(10), Integer(20)]) == Err("Expected 1 argument, found 2")
  {
    assert ArgumentCount(0) == "Expected 1 argument, found 0";
    assert ArgumentCount(2) == "Expected 1 argument, found 2";
  }

  lemma ToStrInvalidExample()
    ensures ToStr([Bool(true)]) == Err("Invalid argument 'true', cannot convert to str")
  {
    assert Display(Bool(true)) == "true";
    assert "Invalid argument '" + "true" == "Invalid argument 'true";
    assert "Invalid argument 'true" + "', cannot convert to str" == "Invalid argument 'true', cannot convert to str";
  }

  lemma ConcatStrExamples()
    ensures Concatenation([String("Hello"), String(","), String(" "), String("World"), String("!")]) == Ok(String("Hello, World!"))
    ensures Concatenation([]) == Err("Expected at least 1 argument, found 0")
  {
    var parts := [String("Hello"), String(","), String(" "), String("World"), String("!")];
    assert Joined(parts[4..]) == "!";
    assert Joined(parts[3..]) == "World!";
    assert Joined(parts[2..]) == " World!";
    assert Joined(parts[1..]) == ", World!";
    assert Joined(parts) == "Hello, World!";
  }

  lemma ConcatStrInvalidExample()
    ensures Concatenation([String("Hello"), Integer(10)]) == Err("Expected String, found 10")
  {
    var mixed := [String("Hello"), Integer(10)];
    assert !mixed[1].String?;
    assert FirstNonString(mixed) == 1;
    assert Decimal(10) == "10";
    assert Display(Integer(10)) == "10";
    assert "Expected String, found " + "10" == "Expected String, found 10";
  }

  lemma ListTakeFirstExamples()
    ensures ListTakeFirst([List([Integer(10), Integer(20)])]) == Ok(Integer(10))
    ensures ListTakeFirst([]) == Err("Expected 1 argument, found 0")
    ensures ListTakeFirst([List([])]) == Err("Cannot take first element of empty list")
    ensures ListTakeFirst([Integer(10)]) == Err("Expected List, found 10")
  {
    assert ArgumentCount(0) == "Expected 1 argument, found 0";
    assert Decimal(10) == "10";
    assert Display(Integer(10)) == "10";
    assert "Expected List, found " + "10" == "Expected List, found 10";
  }
}
