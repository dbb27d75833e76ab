# risp in Dafny

A model of the core of risp, a small Lisp interpreter written in Rust, with
proofs about that model. The repository holds two drafts of the front end,
and both are modelled:

- **risp_eval**:
  - a tokenizer that pads parentheses with spaces and splits on whitespace (`EvalLexer`);
  - a recursive-descent parser (`EvalParser`);
  - the tree-walking `Evaluator` (`Semantics` gives it as functions, `Evaluation` as a class with methods, and `SemanticsLaws` states the values those functions compute);
  - the `SysCallWrapper` for host functions (`SysCalls`).
- **risp**:
  - a character-scanning tokenizer that records line and column (`ScanLexer`);
  - a stack-of-frames parser with a `ParenthesisCounter` (`StackParser`);
  - the library functions `to_str`, `concat_str` and `list_take_first` (`Stdlib`).
- **src/env**: the environment, a scope with a parent (`Environment`).

Shared pieces:
- `Wrappers`: `Option` and `Result`. `Result` has a third case, `Panic`, for the points where the Rust code panics: an index or slice out of bounds, or arithmetic overflow in a debug build.
- `Text`: `i64`, `char::is_whitespace`, `str::parse::<i64>`, decimal printing and UTF-8 length.
- `Objects`: the `Object` tree of both parsers and its `Display`.
- `Stacks`: a `Vec` used as a stack, as both parsers keep their tokens.

Modelling choices:
- Stateful code is written as classes:
  - `Env`: a scope whose variables and parent are fields;
  - `Evaluator`: holds the current `Env`;
  - `ParenthesisCounter`.
- Loops become methods with loop invariants.
- Each method is proved equal to a function on values:
  - `Env` is abstracted as its chain of scopes, innermost first (`Scopes()`);
  - every evaluator method returns the result, and leaves the chain, that the matching `Interp*` function computes;
  - each parser and tokenizer method is proved to agree with a function over the tokens or characters in program order.
- Evaluation need not terminate: a lambda can call itself forever, and that overflows the Rust stack. So every `Interp*` function takes a `fuel` bound on the nesting of `eval_obj`.
  - Running out of fuel is reported as the panic `"stack overflow"`.
  - The `*Fuel` lemmas show that more fuel never changes an answer that was reached without running out.

The model follows the code as written:
- The evaluator has no `true`/`false` literals and no `let` or `defun` forms, although the tests at risp/src/evaluator/test_evaluator.rs:33-45, 159-176 and 236-246 use them.
- It treats `SysCall`, `String` and `Function` objects as nothing special: its `match` names six variants only (`Semantics.Value`).
- A `Lambda` object evaluates to `Void`, not to itself.
- A call does not check its argument count: a missing argument panics on the index and an extra one is ignored.
- Arguments are evaluated in the new scope, after it has been pushed.
- A failing argument returns before `remove_scope`, so the scope stays pushed (`SemanticsLaws.FailingArgumentLeavesScope`).
- A failing body still removes the scope, because the result is kept and returned after `remove_scope`.
- The message for an unknown function is "Function not found: ", and the one for a non-lambda is "Not a lambda: ".
- The risp library tests expect "Invalid value 10, it isnt a str" and "10 is not a List". The code produces "Expected String, found 10" and "Expected List, found 10", and the model follows the code.

## Model

| member | source | states |
|---|---|---|
| Text.ParseI64 | risp_eval/src/lexer/implementation.rs:32 | a word that parses as `i64` is an optional sign followed by digits only, at least one |
| Text.DecimalRoundTrip | risp/src/evaluator/stdlib/funcs.rs:13 | the decimal text of every `i64` parses back to the same number |
| Text.DecimalShape | risp/src/evaluator/stdlib/funcs.rs:13 | the text `to_string` writes for an integer: a `-` exactly when it is negative, never a `+`, and no leading zero except in `0` itself |
| Objects.SymbolObject | risp_eval/src/parser/implementation.rs:49-57 | a quote-wrapped symbol becomes a `String` without its first and last character; a lone quote character panics on the slice; any other symbol stays a `Symbol` |
| Stacks.ReverseReverse | risp_eval/src/parser/implementation.rs:22 | reversing the tokens into a stack and reading the stack from its top gives the tokens back in order |
| EvalLexer.TokenErrorTextDeterminesChar | risp_eval/src/lexer/implementation.rs:16-20 | the error text is "Unexpected character: " followed by the character, so two errors print the same exactly when their characters are equal |
| EvalLexer.Tokenize | risp_eval/src/lexer/implementation.rs:22-41 | `tokenize` never fails, and its tokens are the classified lexemes of the program: each parenthesis alone, and each maximal run of other non-whitespace characters |
| EvalLexer.PaddedWords | risp_eval/src/lexer/implementation.rs:23-24 | padding the parentheses with spaces and splitting on whitespace yields exactly those lexemes |
| EvalLexer.TokenClassification | risp_eval/src/lexer/implementation.rs:27-39 | a word becomes `Integer(n)` exactly when it parses as the `i64` n; a `Symbol` holds the whole non-empty word, with no whitespace and no parenthesis in it |
| EvalLexer.ParensInSourceOrder | risp_eval/src/lexer/implementation.rs:22-41 | the parenthesis tokens are the program's parentheses, one for one, in order |
| EvalLexer.LexemesSpellProgram | risp_eval/src/lexer/implementation.rs:22-41 | the lexemes, concatenated, spell the program with its whitespace removed |
| EvalLexer.LexemesConcat | risp_eval/src/lexer/implementation.rs:22-41 | a text followed by one that starts with whitespace or a parenthesis is lexed as the first text's lexemes followed by the second's |
| EvalLexer.AdditionExample | risp_eval/src/lexer/test_lexer.rs:5-17 | `(+ 1 2)` yields `LParen, Symbol("+"), Integer(1), Integer(2), RParen` |
| EvalParser.ParserErrorTextDeterminesError | risp_eval/src/parser/implementation.rs:78-82 | the error text is "[ParserError]: " followed by the message, so two errors print the same exactly when their messages are equal |
| EvalParser.ParseForm | risp_eval/src/parser/implementation.rs:28-34 | the only error is "Did not find enough tokens": the tokens are empty or do not start with `(`; a success is a list, and the unread tokens are a proper suffix |
| EvalParser.ParseItems | risp_eval/src/parser/implementation.rs:36-71 | reading elements never fails with an error: a list is returned at `)` or when the tokens run out, and it extends the elements read so far |
| EvalParser.ParseList | risp_eval/src/parser/implementation.rs:28-71 | `_parse_list` on the reversed token stack returns what `ParseForm` returns on the tokens in order, and leaves the unread tokens on the stack; each `pop` takes the next token in program order |
| EvalParser.FromTokens | risp_eval/src/parser/implementation.rs:22-26 | `from_tokens` fails exactly when the tokens are empty or do not start with `(` |
| EvalParser.ParseFormRoundTrip | risp_eval/src/parser/implementation.rs:28-71 | the tokens of a list object, followed by any tokens, parse back to that list and leave those tokens unread |
| EvalParser.UnclosedList | risp_eval/src/parser/implementation.rs:70 | a list whose `)` is missing is still returned, without an error |
| EvalParser.LoneQuotePanics | risp_eval/src/parser/implementation.rs:54 | a lone `"` as an element makes the slice panic |
| EvalParser.DisplayTokens | risp_eval/src/parser/implementation.rs:84-103 | an object of integers, plain symbols, strings and lists, printed with `Display`, is tokenized into exactly the tokens it is read back from |
| EvalParser.PrintThenRead | risp_eval/src/parser/implementation.rs:84-103 | such a list, printed, tokenized and parsed, gives back the same list with no token left over |
| EvalParser.AdditionParse | risp_eval/src/parser/test_parser.rs:5-12 | `(+ 1 2)` parses to the list of `+`, 1 and 2 |
| EvalParser.AreaParse | risp_eval/src/parser/test_parser.rs:14-57 | the indented area-of-a-circle program parses to the list of its two `define`s and the product `(* pi (* r r))` |
| ScanLexer.TokenEqIgnoresPosition | risp/src/lexer/implementation.rs:16-20 | tokens compare equal exactly when they are equal once their positions are forgotten |
| ScanLexer.ContentTextDeterminesPosition | risp/src/lexer/implementation.rs:10-14 | the `line:ch content` text of a token determines its line and column |
| ScanLexer.ParseBuffer | risp/src/lexer/implementation.rs:99-109 | an empty buffer pushes nothing; otherwise one token at the given position, never a parenthesis: an `Integer` of the parsed value exactly when the buffer parses as `i64`, else a `Symbol` of the buffer |
| ScanLexer.Tokenize | risp/src/lexer/implementation.rs:41-98 | `tokenize` returns what the loop specification `Run` gives, including `Diverges` for a pass that comes back to the same character |
| ScanLexer.OrdinaryCharNeverAdvances | risp/src/lexer/implementation.rs:88-94 | once the ordinary-character arm does not break, no number of further passes moves the position or pushes a token; only the buffer grows |
| ScanLexer.TokenizeOutcome | risp/src/lexer/implementation.rs:41-98 | the whole behaviour: programs of layout characters only yield their parenthesis tokens; a program whose only ordinary character is its last, one-byte character on the first line ends with that symbol; every other program `Diverges`: the loop stays on its first ordinary character while the buffer grows, until the process fails to allocate |
| ScanLexer.NoIntegersWhenDone | risp/src/lexer/implementation.rs:99-109 | a run that ends has pushed no `Integer` token and at most one symbol, the last token |
| ScanLexer.AdditionDiverges | risp/src/lexer/test_lexer.rs:4-17 | the addition program of the lexer test never finishes |
| ScanLexer.CrLfCountsTwice | risp/src/lexer/implementation.rs:77-87 | `\r\n` counts as two line breaks |
| ScanRepair.FixedTokenize | risp/src/lexer/implementation.rs:41-98 | the repaired loop returns what `FixedRun` gives for the program |
| ScanRepair.FixedAgreesWithSplitting | risp/src/lexer/implementation.rs:41-98 | when the only whitespace is spaces and line breaks, the repaired scanner's tokens, without positions, are exactly the tokens of the risp_eval tokenizer |
| ScanRepair.FixedAddition | risp/src/lexer/test_lexer.rs:5-17 | the repaired scanner yields the tokens the test expects for `(+ 1 2)`, which the scanner as written never finishes |
| ScanRepair.FixedLinesCountBreaks | risp/src/lexer/implementation.rs:50-87 | in the repaired scanner, every parenthesis token, in order, is on the line given by the number of line breaks before it in the program, a `\r\n` counting once |
| ScanRepair.FixedCrLfCountsOnce | risp/src/lexer/implementation.rs:77-87 | the repaired scanner puts the `(` after `\r\n` on line 1, where the scanner as written puts it on line 2 |
| StackParser.ParserErrorTextDeterminesPosition | risp/src/parser/implementation.rs:145-155 | errors with the same `line:ch err` text have the same line, column and message |
| StackParser.Counted | risp/src/parser/implementation.rs:105-123 | `(` is pushed; `)` pops one, or is an "Unmatched closing parenthesis" error at its own position when nothing is open; other tokens change nothing |
| StackParser.CountedKeepsOpen | risp/src/parser/implementation.rs:105-123 | the counter only ever holds opening parentheses |
| StackParser.ParenthesisCounter.constructor | risp/src/parser/implementation.rs:101-103 | a new counter holds no parenthesis |
| StackParser.ParenthesisCounter.Compute | risp/src/parser/implementation.rs:105-123 | `compute` updates the counter as `Counted` says, and on an error leaves it as it was |
| StackParser.ParenthesisCounter.LastChAndLine | risp/src/parser/implementation.rs:125-131 | the position of the innermost open parenthesis |
| StackParser.ParenthesisCounter.IsBalanced | risp/src/parser/implementation.rs:133-135 | balanced exactly when no parenthesis is open |
| StackParser.Step | risp/src/parser/implementation.rs:30-71 | one pass keeps one frame more than open parentheses; a pass that stops the loop panicked or met a `)` with nothing open |
| StackParser.StepsAppend | risp/src/parser/implementation.rs:30-71 | reading two token sequences one after the other is reading their concatenation |
| StackParser.ParseList | risp/src/parser/implementation.rs:26-93 | `parse_list` on the reversed tokens returns what `Parse` gives on the tokens in order |
| StackParser.FromTokens | risp/src/parser/implementation.rs:20-24 | `from_tokens` returns `Parse` of the tokens |
| StackParser.Scanned | risp/src/parser/implementation.rs:30-71 | when no prefix closes too much, the counter ends holding, for each depth, the `(` that last raised the depth to it |
| StackParser.UnmatchedClosingAt | risp/src/parser/implementation.rs:110-117 | the first `)` that closes nothing is reported at its own position |
| StackParser.UnmatchedOpeningAt | risp/src/parser/implementation.rs:73-80 | parentheses left open are reported at the innermost one still open |
| StackParser.BalancedParses | risp/src/parser/implementation.rs:26-93 | balanced tokens without a lone quote parse without error |
| StackParser.ErrorsExactlyWhenUnbalanced | risp/src/parser/implementation.rs:26-93 | without lone quotes, `parse_list` fails exactly when some prefix closes too much or some parenthesis stays open |
| StackParser.RoundTrip | risp/src/parser/implementation.rs:82-92 | the tokens of top-level objects parse to the one object when there is exactly one, and to `Void` otherwise |
| StackParser.ListRoundTrip | risp/src/parser/implementation.rs:37-45 | the tokens of a list object parse back to that list |
| Environment.Bind | src/env/implementation.rs:40-42 | `set` changes only the innermost scope, adding the name to its keys |
| Environment.Push | src/env/implementation.rs:15-20 | `new_scope` adds one empty scope in front of the parent's chain |
| Environment.Pop | src/env/implementation.rs:22-31 | `remove_scope` drops the innermost scope, or leaves one empty scope when there is no parent |
| Environment.LookupInnermost | src/env/implementation.rs:33-38 | `get` returns the binding of the innermost scope that binds the name |
| Environment.LookupMissing | src/env/implementation.rs:33-38 | `get` returns nothing when no scope binds the name |
| Environment.LookupBind | src/env/implementation.rs:40-42 | after `set` the name reads back as the value, and every other name reads as before |
| Environment.LookupPush | src/env/implementation.rs:15-20 | a new scope sees every variable of its parent |
| Environment.Shadowing | src/env/implementation.rs:15-42 | a variable set in a child scope shadows the parent's, and removing the child restores the parent's chain exactly |
| Environment.PopRoot | src/env/implementation.rs:27-30 | removing the root scope forgets every variable |
| Environment.Env.constructor | src/env/implementation.rs:11-13 | `new` is a single empty scope |
| Environment.Env.NewScope | src/env/implementation.rs:15-20 | the new scope's chain is the parent's chain behind one empty scope |
| Environment.Env.RemoveScope | src/env/implementation.rs:22-31 | the object now stands for its parent's chain, by copying the parent's variables and parent |
| Environment.Env.Get | src/env/implementation.rs:33-38 | `get` on the object is `Lookup` on its chain |
| Environment.Env.Set | src/env/implementation.rs:40-42 | `set` on the object is `Bind` on its chain; the parent is untouched |
| Environment.ParentScenario | risp/src/env/test_env.rs:17-43 | a parent's variable is visible from a child without being the child's own; the child's own is visible too; removing the root scope forgets everything |
| Semantics.TruncDivRemainder | risp_eval/src/evaluator/implementation.rs:101 | `i64` division rounds toward zero: the remainder is smaller than the divisor and has the dividend's sign |
| Semantics.TruncDivMagnitude | risp_eval/src/evaluator/implementation.rs:101 | the quotient is never larger in magnitude than the dividend |
| Semantics.DivisionOverflow | risp_eval/src/evaluator/implementation.rs:101 | of all divisions by a non-zero `i64`, only `i64::MIN / -1` leaves the range |
| Semantics.Checked | risp_eval/src/evaluator/implementation.rs:93-101 | a result in the `i64` range is returned; any other panics with Rust's "attempt to … with overflow" message |
| Semantics.ApplyOperator | risp_eval/src/evaluator/implementation.rs:90-109 | `+ - *` give the `Integer` of the exact sum, difference or product exactly when it fits in `i64`, and panic otherwise; `/` fails with "Division by zero" for a zero divisor, panics only for `i64::MIN / -1`, and otherwise gives the quotient rounded toward zero; `< > = !=` give the `Bool` of the comparison; any other operator fails with "Invalid infix operator: " and the operator |
| Semantics.InterpSymbol | risp_eval/src/evaluator/implementation.rs:61-67 | a symbol evaluates to its binding, or fails with "Unbound symbol: " and its name |
| Semantics.Interp | risp_eval/src/evaluator/implementation.rs:21-30 | only a list can change the environment; the chain never gets shallower, and a success keeps its depth and every scope but the innermost (that any outcome keeps the caller's outer scopes: `SemanticsLaws.InterpKeepsOuter`) |
| Semantics.InterpList | risp_eval/src/evaluator/implementation.rs:32-59 | the chain never gets shallower; a success keeps its depth and every scope but the innermost |
| Semantics.InterpEach | risp_eval/src/evaluator/implementation.rs:47-57 | the chain never gets shallower; a success keeps every scope but the innermost and is a list extending the values kept so far by at most one per element (the values themselves: `SemanticsLaws.EachCollects`) |
| Semantics.InterpBinary | risp_eval/src/evaluator/implementation.rs:69-112 | the chain never gets shallower; a success keeps every scope but the innermost and is an `Integer` or a `Bool` (the values: `SemanticsLaws.BinaryOutcome`) |
| Semantics.InterpDefine | risp_eval/src/evaluator/implementation.rs:114-128 | the chain never gets shallower, and a success changes only the innermost scope (the binding: `SemanticsLaws.DefineBinds`) |
| Semantics.InterpIf | risp_eval/src/evaluator/implementation.rs:130-145 | the chain never gets shallower, and a success changes only the innermost scope (the branch taken: `SemanticsLaws.IfChoosesBranch`) |
| Semantics.Names | risp_eval/src/evaluator/implementation.rs:150-158 | the parameter names are the symbols' texts, in order |
| Semantics.LambdaOf | risp_eval/src/evaluator/implementation.rs:147-173 | a lambda value exactly when the second element is a list of symbols and the third a list; a panic exactly when an element is missing at the point it is indexed |
| Semantics.InterpCall | risp_eval/src/evaluator/implementation.rs:175-197 | the chain never gets shallower, and a successful call leaves the caller's chain exactly as it was (the outcome: `SemanticsLaws.CallOutcome`) |
| Semantics.InterpArgs | risp_eval/src/evaluator/implementation.rs:185-188 | the chain never gets shallower; binding the arguments returns `Void` on success, keeps the depth of the chain and changes only the innermost scope (the bindings: `SemanticsLaws.ArgsBind`) |
| SemanticsLaws.BinaryOutcome | risp_eval/src/evaluator/implementation.rs:69-112 | exactly three elements, else the arity error; the left operand is evaluated, then the right one in the chain the left left; either failure is returned as is; a non-integer operand is the "Left/Right operand must be an integer" error with its `{:?}` text; otherwise the outcome is `ApplyOperator` on the two integers |
| SemanticsLaws.LiteralOperands | risp_eval/src/evaluator/implementation.rs:69-112 | `(op a b)` on integer literals is `ApplyOperator(op, a, b)` and changes no scope |
| SemanticsLaws.DefineBinds | risp_eval/src/evaluator/implementation.rs:114-128 | the arity and "Invalid define" errors; a failing value is returned as is; otherwise `Void`, the name reads as the value, every other name reads as after the value was evaluated, and only the innermost scope changed |
| SemanticsLaws.DefineThenRead | risp_eval/src/evaluator/implementation.rs:114-128 | after a successful `(define name e)`, `name` evaluates to the value of `e` |
| SemanticsLaws.IfChoosesBranch | risp_eval/src/evaluator/implementation.rs:130-145 | exactly four elements, else the arity error; a failing condition is returned as is; a non-boolean one is "Invalid condition"; `true` gives the third element's outcome and `false` the fourth's, evaluated in the chain the condition left |
| SemanticsLaws.IfIgnoresOtherBranch | risp_eval/src/evaluator/implementation.rs:130-145 | replacing the branch the condition does not choose by anything changes neither the result nor the chain |
| SemanticsLaws.NonVoidConcat | risp_eval/src/evaluator/implementation.rs:51-53 | dropping `Void` values from two runs of values one after the other is dropping them from the joined run |
| SemanticsLaws.EachCollects | risp_eval/src/evaluator/implementation.rs:47-57 | the element loop returns the first failure among the elements, evaluated in order each in the chain the one before left, or the values kept so far followed by every non-`Void` value in order |
| SemanticsLaws.ListCollects | risp_eval/src/evaluator/implementation.rs:32-59 | a list without a symbol head evaluates to the list of its elements' non-`Void` values in order, or to the first failure |
| SemanticsLaws.KeepsOuterTrans | risp_eval/src/evaluator/implementation.rs:21-197 | keeping the outer scopes is transitive, so evaluations in sequence keep the outer scopes of the chain they started in |
| SemanticsLaws.InterpKeepsOuter | risp_eval/src/evaluator/implementation.rs:21-30 | any evaluation, successful or not, leaves every scope of the caller's chain but the innermost in place, under the scopes it opened and did not remove |
| SemanticsLaws.ListKeepsOuter | risp_eval/src/evaluator/implementation.rs:32-59 | the same for `eval_list` |
| SemanticsLaws.EachKeepsOuter | risp_eval/src/evaluator/implementation.rs:47-57 | the same for the element loop |
| SemanticsLaws.BinaryKeepsOuter | risp_eval/src/evaluator/implementation.rs:69-112 | the same for `eval_binary_op` |
| SemanticsLaws.DefineKeepsOuter | risp_eval/src/evaluator/implementation.rs:114-128 | the same for `eval_define` |
| SemanticsLaws.IfKeepsOuter | risp_eval/src/evaluator/implementation.rs:130-145 | the same for `eval_if` |
| SemanticsLaws.CallKeepsOuter | risp_eval/src/evaluator/implementation.rs:175-197 | the same for `eval_func_call`, including a failing argument that leaves the call's scope open above the caller's chain |
| SemanticsLaws.ArgsKeepsOuter | risp_eval/src/evaluator/implementation.rs:185-188 | the same for the argument loop |
| SemanticsLaws.PopKeepsOuter | risp_eval/src/evaluator/implementation.rs:188-190 | removing the call's scope after the body gives back a chain that keeps the caller's outer scopes |
| SemanticsLaws.CallOutcome | risp_eval/src/evaluator/implementation.rs:175-197 | "Function not found: " for an unbound name and "Not a lambda: " for a non-lambda, both changing nothing; for a lambda, a failing argument is returned with the new scope still open, and otherwise the body's outcome, failure or not, with the innermost scope of the chain it left removed |
| SemanticsLaws.FailingArgumentLeavesScope | risp_eval/src/evaluator/implementation.rs:184-186 | for every call whose argument binding fails: the failure is returned, and the caller's chain lies intact under at least one more scope |
| SemanticsLaws.FailingBodyRemovesScope | risp_eval/src/evaluator/implementation.rs:188-191 | a failing body's failure is returned with the innermost scope of the chain the body left removed |
| SemanticsLaws.ArgsBind | risp_eval/src/evaluator/implementation.rs:185-188 | when the arguments are atoms that evaluate without error and name no parameter, binding succeeds, parameter `i` reads as the value of argument `i + 1` (the last one when a name repeats), every other name keeps its meaning, and the outer scopes do not change |
| Evaluation.Evaluator.constructor | risp_eval/src/evaluator/implementation.rs:9-11 | the evaluator holds the given environment |
| Evaluation.Evaluator.EvalObj | risp_eval/src/evaluator/implementation.rs:21-30 | `eval_obj` returns, and leaves the environment's chain in, what `Interp` gives |
| Evaluation.Evaluator.EvalList | risp_eval/src/evaluator/implementation.rs:32-46 | `eval_list` agrees with `InterpList` |
| Evaluation.Evaluator.EvalElements | risp_eval/src/evaluator/implementation.rs:47-57 | the loop over a list without a symbol head agrees with `InterpEach` |
| Evaluation.Evaluator.EvalSymbol | risp_eval/src/evaluator/implementation.rs:61-67 | `eval_symbol` agrees with `InterpSymbol` and changes nothing |
| Evaluation.Evaluator.EvalBinaryOp | risp_eval/src/evaluator/implementation.rs:69-112 | `eval_binary_op` agrees with `InterpBinary` |
| Evaluation.Evaluator.EvalDefine | risp_eval/src/evaluator/implementation.rs:114-128 | `eval_define` agrees with `InterpDefine` |
| Evaluation.Evaluator.EvalIf | risp_eval/src/evaluator/implementation.rs:130-145 | `eval_if` agrees with `InterpIf` |
| Evaluation.Evaluator.EvalLambda | risp_eval/src/evaluator/implementation.rs:147-173 | `eval_lambda` agrees with `LambdaOf` |
| Evaluation.Evaluator.EvalFuncCall | risp_eval/src/evaluator/implementation.rs:175-197 | `eval_func_call` agrees with `InterpCall`, pushing a new scope and removing it after the body |
| Evaluation.Evaluator.EvalArgs | risp_eval/src/evaluator/implementation.rs:184-188 | a new scope is pushed and the arguments bound in it, as `InterpArgs` on the pushed chain gives |
| Evaluation.Evaluator.EvalBody | risp_eval/src/evaluator/implementation.rs:189-191 | the body is evaluated and the innermost scope removed whatever the result, which is returned |
| Evaluation.Evaluator.BindArguments | risp_eval/src/evaluator/implementation.rs:185-188 | the argument loop agrees with `InterpArgs` |
| Evaluation.Evaluator.BindArgument | risp_eval/src/evaluator/implementation.rs:186-187 | one turn of that loop: an index panic when the argument is missing, the argument's error as is, or the value bound in the innermost scope, after which `InterpArgs` goes on from the next parameter |
| SemanticsProperties.InterpFuel | risp_eval/src/evaluator/implementation.rs:21-30 | an evaluation that does not run out of fuel gives the same outcome with any larger fuel |
| SemanticsProperties.InterpListFuel | risp_eval/src/evaluator/implementation.rs:32-59 | the same for `eval_list` |
| SemanticsProperties.InterpEachFuel | risp_eval/src/evaluator/implementation.rs:47-57 | the same for the element loop |
| SemanticsProperties.InterpBinaryFuel | risp_eval/src/evaluator/implementation.rs:69-112 | the same for `eval_binary_op` |
| SemanticsProperties.InterpDefineFuel | risp_eval/src/evaluator/implementation.rs:114-128 | the same for `eval_define` |
| SemanticsProperties.InterpIfFuel | risp_eval/src/evaluator/implementation.rs:130-145 | the same for `eval_if` |
| SemanticsProperties.InterpCallFuel | risp_eval/src/evaluator/implementation.rs:175-197 | the same for `eval_func_call` |
| SemanticsProperties.InterpArgsFuel | risp_eval/src/evaluator/implementation.rs:185-188 | the same for the argument loop |
| SemanticsProperties.AddExample | risp_eval/src/evaluator/test_evaluator.rs:5-17 | `(+ 1 2)` evaluates to 3 |
| SemanticsProperties.DivisionByZeroExample | risp_eval/src/evaluator/test_evaluator.rs:20-32 | `(/ 1 0)` fails with "Division by zero" |
| SemanticsProperties.VariablesExample | risp_eval/src/evaluator/test_evaluator.rs:35-53 | two `define`s and the area expression give the list `(31400)`, with both names bound in the root scope |
| SemanticsProperties.LambdaExample | risp_eval/src/evaluator/test_evaluator.rs:56-73 | defining `square` as a lambda and calling it on 10 gives the list `(100)`, and the call's scope is gone afterwards |
| SemanticsProperties.FailingArgumentExample | risp_eval/src/evaluator/implementation.rs:184-186 | calling `square` on an unbound `z` fails with "Unbound symbol: z" and leaves the call's scope pushed |
| SemanticsProperties.DynamicScopeExample | risp_eval/src/evaluator/implementation.rs:183-191 | a lambda keeps no environment: its free names are looked up in the caller's chain at call time |
| Stdlib.ToStrObj | risp/src/evaluator/stdlib/funcs.rs:10-16 | a string is kept; an integer becomes exactly its decimal text `Decimal` (shape in `Text.DecimalShape`), which parses back to it; anything else fails with "Invalid argument '…', cannot convert to str" |
| Stdlib.ToStr | risp/src/evaluator/stdlib/funcs.rs:3-8 | exactly one argument is converted; any other count fails with "Expected 1 argument, found n" |
| Stdlib.ToStrIdempotent | risp/src/evaluator/stdlib/funcs.rs:3-16 | converting a converted value again changes nothing |
| Stdlib.FirstNonString | risp/src/evaluator/stdlib/funcs.rs:23-29 | the first argument that is not a string: all before it are strings |
| Stdlib.JoinedAppend | risp/src/evaluator/stdlib/funcs.rs:23-25 | the texts of two runs of strings, joined, are the texts of the runs joined |
| Stdlib.ConcatStr | risp/src/evaluator/stdlib/funcs.rs:18-34 | `concat_str` fails without arguments, fails naming the first argument that is not a string, and otherwise returns the texts joined in order (`Concatenation`) |
| Stdlib.ConcatenationInSteps | risp/src/evaluator/stdlib/funcs.rs:18-34 | joining a prefix first and then the rest gives the same string as joining everything at once |
| Stdlib.ListTakeFirst | risp/src/evaluator/stdlib/funcs.rs:36-51 | success exactly for one non-empty list argument, giving its first element; otherwise the count, empty-list or not-a-list error |
| Stdlib.ToStrExamples | risp/src/evaluator/stdlib/test_funcs.rs:4-26 | the string "Hello" is kept and the integer 10 becomes "10" |
| Stdlib.ToStrCountExamples | risp/src/evaluator/stdlib/test_funcs.rs:28-62 | the argument-count errors for no argument and for two arguments |
| Stdlib.ToStrInvalidExample | risp/src/evaluator/stdlib/test_funcs.rs:40-50 | `true` is refused with "Invalid argument 'true', cannot convert to str" |
| Stdlib.ConcatStrExamples | risp/src/evaluator/stdlib/test_funcs.rs:64-92 | "Hello, World!" from its parts, and the error without arguments |
| Stdlib.ConcatStrInvalidExample | risp/src/evaluator/stdlib/test_funcs.rs:94-104 | for a string followed by 10, the code's message "Expected String, found 10", where the test expects "Invalid value 10, it isnt a str" |
| Stdlib.ListTakeFirstExamples | risp/src/evaluator/stdlib/test_funcs.rs:106-152 | the first of `(10 20)` is 10, and the count and empty-list errors; for the argument 10 the code's message "Expected List, found 10", where the test expects "10 is not a List" |
| SysCalls.NewComparesByName | risp_eval/src/evaluator/stdlib/sys_call.rs:18-30 | two new wrappers compare equal exactly when they are made under the same name, and print the same whatever their functions |
| SysCalls.DebugText | risp_eval/src/evaluator/stdlib/sys_call.rs:12-16 | the text is `<std::`, the name, then `>` |
| SysCalls.RunIgnoresName | risp_eval/src/evaluator/stdlib/sys_call.rs:32-34 | what a wrapper runs depends on its function alone, not on its name |
| SysCalls.EqIsEquivalence | risp_eval/src/evaluator/stdlib/sys_call.rs:12-22 | the name comparison is an equivalence, and two wrappers print the same exactly when they compare equal |
| SysCalls.EqIgnoresFunction | risp_eval/src/evaluator/stdlib/sys_call.rs:18-22 | wrappers with the same name compare equal even when their functions differ and give different results |
| SysCalls.DebugExample | risp/src/evaluator/stdlib/test_funcs.rs:154-160 | the wrapper named `test` prints as `<std::test>` |

## Findings

| source | as written | input that shows it | evidently intended | confidence | as-written member | corrected member |
|---|---|---|---|---|---|---|
| risp/src/lexer/implementation.rs:88-94 | the ordinary-character arm adds the character to the buffer but never consumes it, so the next pass sees the same character; parentheses and the end of input never flush the buffer | `(+ 1 2)`: the loop keeps reading `+`, growing the buffer until an allocation fails | consume the character, and flush the buffer before a parenthesis and at the end; `(+ 1 2)` then gives `LParen, Symbol("+"), Integer(1), Integer(2), RParen`, as risp/src/lexer/test_lexer.rs:5-17 expects | high (not executed) | ScanLexer.AdditionDiverges | ScanRepair.FixedAgreesWithSplitting |
| risp/src/lexer/implementation.rs:77-80 | the `\r` arm peeks for `\n` before consuming the `\r`, so the peek sees the `\r` itself and never skips a `\n` | `"\r\n("`: the `(` is placed on line 2 | `\r\n` is a single line break, so every parenthesis is on the line the breaks before it give, and this `(` is on line 1 | medium (not executed) | ScanLexer.CrLfCountsTwice | ScanRepair.FixedLinesCountBreaks |

## Left out

- `Evaluator::eval` (risp_eval/src/evaluator/implementation.rs:13-19) is not modelled. It calls `crate::parser::parse`, and that function is not part of this model. The model starts from a parsed `Value`.
- `print_ln` (risp/src/evaluator/stdlib/funcs.rs:53-58) writes to standard output and is not modelled.
- `SysCallWrapper` holds any Rust function pointer. The model holds one of the three modelled library functions (`Objects.Native`), because a Dafny datatype cannot hold a function over itself. The test closure that formats its arguments with `{:?}` is therefore not representable.
- `Objects.Object`'s equality is structural. The derived Rust `PartialEq` compares `SysCall` payloads by name only; `SysCalls.Eq` models that comparison on its own.
- `Rc<RefCell<..>>` sharing of environments is not modelled. `Env.parent` is a plain reference, and no other scope ever aliases an evaluator's scope. `remove_scope`'s copy of the parent's contents is modelled as the object taking over the parent's chain.
- After a Rust panic (index out of bounds, overflow, stack overflow), `EvalFuncCall` still removes its scope, where Rust would unwind. The chain reported next to a `Panic` outcome is not meaningful.
- Semantics.Interp: a stack overflow is reported as a panic when the `fuel` bound on nesting runs out. The actual stack size of the Rust program is not modelled.
- Semantics.DebugText: the `{:?}` text in operand errors escapes `"`, `\`, `\n`, `\r`, `\t` and `\0`. The `\u{..}` escapes Rust uses for other control characters are not modelled.
- `usize` columns and lines, and the `i64` arithmetic of the library, are unbounded in the model. The evaluator's arithmetic checks `i64` overflow explicitly.
- Positions are characters, except in `program.len()`, which is modelled in UTF-8 bytes (`Text.Utf8Len`). Slicing quote-wrapped symbols uses characters, which agrees with the byte slice because the quotes are one byte each.
- SemanticsLaws.ArgsBind: the bound values are stated only for arguments that are atoms and name no parameter. A list argument, or a symbol naming an earlier parameter, sees the scope the earlier arguments changed; `InterpArgs` itself covers those cases.
- `str::parse::<i64>` is modelled by its grammar and range (`Text.ParseI64`), not by the library's code.
- The crate wiring (risp_eval/src/lib.rs, src/main.rs, repl/src/main.rs) and risp/src/parser/implementation2.rs are not part of this model.
