/** The value tree that both parser drafts build and that the library
    functions take and return (`Object` in risp/src/parser and
    risp_eval/src/parser; the two definitions and their `Display` are the same). */
module Objects {
  import opened Wrappers
  import opened Text

  /** The native function a `SysCallWrapper` holds: one of the library
      functions of risp/src/evaluator/stdlib/funcs.rs. */
  datatype Native = ToStr | ConcatStr | ListTakeFirst

  /** A host function registered under a name. */
  datatype SysCallWrapper = SysCallWrapper(name: string, func: Native)

  datatype Object =
    | Void
    | Integer(n: i64)
    | Bool(b: bool)
    | Symbol(s: string)
    | String(s: string)
    | Lambda(params: seq<string>, body: seq<Object>)
    | Function(params: seq<string>, body: seq<Object>)
    | SysCall(wrapper: SysCallWrapper)
    | List(items: seq<Object>)

  /** A symbol whose text begins and ends with `"`, or begins and ends with `'`. */
  predicate IsQuoted(s: string) {
    |s| > 0 && ((s[0] == '"' && s[|s| - 1] == '"') || (s[0] == '\'' && s[|s| - 1] == '\''))
  }

  /** The panic of `&s[1..s.len() - 1]` on a one-character `str` `s`: the
      range would end before it begins. */
  function SlicePanic(s: string): string {
    "begin <= end (1 <= 0) when slicing `" + s + "`"
  }

  /** What both parsers push for a `Symbol` token: a quote-wrapped text becomes a
      `String` without its first and last character, anything else stays a
      `Symbol`. A lone `"` or `'` is quote-wrapped but only one character long,
      and the byte slice `[1..len - 1]` panics on it. */
  function SymbolObject<E>(s: string): (r: Result<Object, E>)
    ensures !r.Err?
    ensures r.Panic? <==> IsQuoted(s) && |s| == 1
    ensures r.Ok? && IsQuoted(s) ==> r.value == String(s[1..|s| - 1]) && s == [s[0]] + r.value.s + [s[0]]
    ensures !IsQuoted(s) ==> r == Ok(Symbol(s))
  {
    if IsQuoted(s) then
      if |s| < 2 then Panic(SlicePanic(s))
      else Ok(String(s[1..|s| - 1]))
    else Ok(Symbol(s))
  }

  /** `impl Display for Object`: integers in decimal, booleans as `true` and
      `false`, symbols as their text, strings between double quotes, lists as
      their elements' texts separated by single spaces between parentheses, and
      nothing at all for `Void`, `Lambda`, `Function` and `SysCall`. */
  function Display(o: Object): string {
    match o
    case Integer(n) => Decimal(n)
    case Bool(b) => if b then "true" else "false"
    case Symbol(s) => s
    case String(s) => "\"" + s + "\""
    case List(items) => "(" + DisplayItems(items) + ")"
    case _ => ""
  }

  /** The elements of a list, each displayed, separated by one space. */
  function DisplayItems(items: seq<Object>): string {
    if items == [] then ""
    else if |items| == 1 then Display(items[0])
    else Display(items[0]) + " " + DisplayItems(items[1..])
  }

  /** An object both parsers can produce from tokens: integers, symbols that
      are not quote-wrapped, strings, and lists of these. */
  predicate Parseable(o: Object) {
    match o
    case Integer(_) => true
    case Symbol(s) => !IsQuoted(s)
    case String(_) => true
    case List(items) => forall i :: 0 <= i < |items| ==> Parseable(items[i])
    case _ => false
  }
}
