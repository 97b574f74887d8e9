# wisp, modelled in Dafny

wisp is a small Lisp interpreter written as one C++ file, `wisp.cpp`. This project
models its engine: the value type and its operators, the scopes names are looked
up in, the evaluator with its builtin functions, and the reader that turns program
text into values. It then proves properties of the model.

The modules follow the source's structure:

- `Wrappers` (`wrappers.dfy`): the `Result`/`Option` types every operation returns.
- `Int32` (`int32.dfy`): the host's 32-bit `int` as a subset type, and C++'s
  truncating `/` and `%` with their defining laws.
- `Values` (`values.dfy`): the tagged value `Quote | Atom | Int | Float | List | Str |
  Lambda | Builtin | Unit` and its operations. These are equality, truthiness, the
  four orderings, `+ - * / %`, `push`/`pop`, the casts and the type name. A failure
  is either an interpreter error (kind plus cause value), a malformed program, an
  operation the C++ leaves undefined, an I/O builtin, or running out of fuel.
- `Render` (`render.dfy`): `debug` and `display`.
- `Reader` (`reader.dfy`): `parse(s, ptr)` with its comment, quote, list, number,
  string, unit and atom cases, and the top-level `parse(s)` loop. The number case
  converts the text its scan covered. That is the corrected reading of line 880,
  whose `substr` call as written takes more text (see Findings). The reader, `run`,
  the `parse` builtin and every read-back lemma use the corrected line.
- `Environments` (`env.dfy`): scopes with local definitions and an optional
  enclosing scope, the reserved-name table of `Environment::get`, and `set`/`combine`.
- `Evaluator` (`eval.dfy`): `eval`, `eval_args`, `apply`, and every non-I/O builtin.
  It also has the loops of `do`/`scope`, `map`, `filter`, `reduce` and `range`, and `run`.
- `ValueLaws`, `ReaderLaws`, `EnvironmentLaws` and `EvaluatorLaws`: lemmas about the
  four pieces. `Seqs` holds generic sequence facts.

Evaluation returns the value together with the scope as it is afterwards, because
`define` and `defun` change the scope they are given. User programs need not
terminate, so the evaluator's functions take a `fuel` argument. Running out of fuel
is reported as its own failure, `OutOfFuel`, never as a result of the program.
Floating-point numbers are opaque: every float operation, and the addresses `debug`
prints for builtins, come from a `Host` parameter.

## Model

| member | source | states |
|---|---|---|
| Int32.TruncDivMod | wisp.cpp:561 | Truncating division: quotient times divisor plus remainder is the dividend; the remainder is smaller than the divisor in magnitude and is zero or has the dividend's sign; the quotient's magnitude times the divisor's does not exceed the dividend's |
| Int32.TruncDivBound | wisp.cpp:561 | The truncated quotient is no larger in magnitude than the dividend |
| Values.IntResult | wisp.cpp:454 | An integer result is defined exactly when it fits a 32-bit `int`; otherwise it is an overflow |
| Values.TypeNameDistinguishes | wisp.cpp:610-631 | Two values have the same type name exactly when they are the same variant, except that lambdas and builtins are both "function" |
| Values.Eq | wisp.cpp:336-368 | Int and Float compare after promoting the int; two values of different variants that are not both numbers are never equal |
| Values.EqSeq | wisp.cpp:356-360 | Equal lists have equal lengths |
| Values.Lt | wisp.cpp:406-425 | Every error of `<` is raised with the left operand as its cause |
| Values.IntArith | wisp.cpp:454-590 | Integer arithmetic yields an Int or an undefined-behaviour failure, never an interpreter error |
| Values.Arith | wisp.cpp:432-608 | A unit right operand gives unit; two numbers give a number; every error is either undefined behaviour or InvalidBinOp caused by the left operand |
| Values.PushEachConcatenates | wisp.cpp:462-469 | Pushing the right list's items one at a time onto the left list is concatenation |
| Values.CastToInt | wisp.cpp:311-318 | The cast gives an Int, an Int unchanged; a non-number raises BadCast |
| Values.CastToFloat | wisp.cpp:322-330 | The cast gives a Float, a Float unchanged; a non-number raises BadCast |
| Values.Push | wisp.cpp:282-289 | Pushing succeeds exactly on a list and appends the item after all the old items; a non-list raises MismatchedTypes |
| Values.Pop | wisp.cpp:292-305 | A non-list raises MismatchedTypes, an empty list is undefined, and otherwise the list is the remaining list followed by the popped item |
| Values.PopAfterPush | wisp.cpp:282-305 | Pop undoes push: it gives back the pushed item and the original list |
| ValueLaws.EqIsStructural | wisp.cpp:336-368 | On values without floats, lambdas or builtins, equality is structural equality, in both directions |
| ValueLaws.EqSeqIsStructural | wisp.cpp:356-360 | List equality on such values is sequence equality |
| ValueLaws.EqReflexive | wisp.cpp:336-368 | Every float-free value equals itself, lambdas and builtins included |
| ValueLaws.EqSeqReflexive | wisp.cpp:356-360 | Every float-free list equals itself |
| ValueLaws.LambdaEqIgnoresCapture | wisp.cpp:356-360 | Two lambdas with the same parameters and body are equal whatever scopes they captured |
| ValueLaws.BuiltinEqIsSameFunction | wisp.cpp:349-350 | Builtins are equal exactly when they run the same native function, whatever their names |
| ValueLaws.QuoteEqComparesInner | wisp.cpp:361-364 | Two quotes are equal exactly when the quoted values are |
| ValueLaws.TruthyCharacterised | wisp.cpp:243-245 | An Int is true exactly when nonzero, a Float exactly when it is not equal to 0.0, and every non-number is true |
| ValueLaws.LtErrors | wisp.cpp:406-425 | `<` raises InvalidBinOp when the right side is not a number and InvalidOrder when only the left side is not; it succeeds on two numbers |
| ValueLaws.OrderOnInts | wisp.cpp:394-425 | On two Ints, `< <= > >=` agree with integer comparison |
| ValueLaws.DerivedComparisons | wisp.cpp:394-404 | `>=` is exactly `!(a < b)` and `>` is exactly `!(a == b or a < b)`, errors of `<` included |
| ValueLaws.LeReflexive | wisp.cpp:398-404 | Any float-free value is `<=` itself and not `>` itself, because equality is tried first |
| ValueLaws.IntRingOps | wisp.cpp:454-531 | Integer `+ - *` give the mathematical result when it fits, and overflow otherwise |
| ValueLaws.IntDivisionOps | wisp.cpp:561-590 | Integer `/` and `%` by zero are undefined, and so are `INT_MIN / -1` and `INT_MIN % -1`, which overflow; every other pair gives a quotient and remainder satisfying the truncating division laws |
| ValueLaws.UnitAbsorbsFromTheRight | wisp.cpp:432-576 | `x op @` is `@` for every left operand and each of the five operators |
| ValueLaws.UnitOnTheLeft | wisp.cpp:439-602 | `@ + n` raises InvalidBinOp for a number `n`, while `@ - n`, `@ * n`, `@ / n` and `@ % n` give `@` |
| ValueLaws.PlusConcatenates | wisp.cpp:456-470 | `+` concatenates two strings, and two lists with the left items first |
| ValueLaws.PlusErrors | wisp.cpp:439-475 | `+` with exactly one numeric operand, or a string or list paired with a different type, raises InvalidBinOp |
| ValueLaws.MixedPromotes | wisp.cpp:443-589 | An Int paired with a Float is promoted and the float operation applied |
| Render.ShowNat | wisp.cpp:92 | The decimal rendering of a number is a nonempty run of digits |
| Reader.ScanWhile | wisp.cpp:879 | A scan stops at the end of the text or at the first character outside its class |
| Reader.ScanWhileRun | wisp.cpp:879 | Every character a scan passes over belongs to its class |
| Reader.SkipWhitespace | wisp.cpp:835-837 | Skipping blanks only moves forward and stays inside the text |
| Reader.Substr | wisp.cpp:880 | `substr(pos, count)` clamps the count to the end of the text and copies the characters from `pos` |
| Reader.LeadingDigits | wisp.cpp:885 | The digits a text starts with are a prefix of it, all digits, and followed by a non-digit or the end |
| Reader.Atoi | wisp.cpp:885 | `atoi` succeeds exactly when the leading digits' value fits an `int`, and gives that value |
| Reader.LiteralText | wisp.cpp:878-880 | On the corrected reading of line 880 (see Findings), the literal text converted is exactly the span the number scan covered |
| Reader.ScanString | wisp.cpp:887-896 | A string scan that succeeds ends on a double quote; it fails as a malformed program or by reading past the end |
| Reader.FirstEscapedQuote | wisp.cpp:901-902 | The search finds the first `\"` pair at or after its start, or there is none |
| Reader.Unescape | wisp.cpp:901-902 | After unescaping no `\"` pair is left, and the text did not grow |
| Reader.ParseExpr | wisp.cpp:839-852 | A successful read moves forward and strictly shrinks the distance to the end of the text |
| Reader.ParseForm | wisp.cpp:854-922 | A successful form read moves forward and strictly shrinks the distance to the end of the text |
| Reader.ReadToken | wisp.cpp:873-921 | A token read leaves the text unchanged and moves past the token's first character |
| Reader.ReadNumber | wisp.cpp:873-885 | A number read, with line 880 corrected, leaves the text unchanged and moves past the literal's first character |
| Reader.ReadString | wisp.cpp:887-903 | A string read leaves the text unchanged and moves past the opening quote |
| Reader.StringLiteral | wisp.cpp:898-903 | The literal's value is read and reading continues after the closing quote |
| Reader.ParseItems | wisp.cpp:862-871 | List items are read up to a closing parenthesis, without moving backward |
| Reader.ParseLoop | wisp.cpp:926-934 | The forms read so far are kept in order, and a read inside the text adds one |
| Reader.ParseProgram | wisp.cpp:925-937 | The empty text has no forms, and a nonempty text that reads has at least one |
| ReaderLaws.ScanWhileStops | wisp.cpp:879 | A scan over a run of its class ends exactly where the run ends |
| ReaderLaws.ShowNatValue | wisp.cpp:885 | The digits written for a number spell that number |
| ReaderLaws.ReadShowNat | wisp.cpp:885 | `atoi` reads back every natural number the interpreter writes, within range, and the text has no dot |
| ReaderLaws.UnescapeEscaped | wisp.cpp:901-902 | Unescaping undoes the quote escaping of `debug` on a backslash-free text |
| ReaderLaws.ScanStringEscaped | wisp.cpp:887-896 | The string scan runs over an escaped backslash-free text to the closing quote |
| ReaderLaws.ScanStringUnterminated | wisp.cpp:889-896 | A string scan that finds no closing quote is malformed, whatever escapes it steps over, unless the text ends in a backslash |
| ReaderLaws.StringNeverClosed | wisp.cpp:887-896 | A form that opens a string literal no quote closes is malformed, wherever in the text it starts |
| ReaderLaws.UnterminatedString | wisp.cpp:887-896 | A program that opens a string literal and never closes it is malformed, unless its text ends in a backslash |
| ReaderLaws.UnterminatedStringInList | wisp.cpp:862-896 | The same holds for an unclosed literal opened as the first item of a list |
| ReaderLaws.CommentOnly | wisp.cpp:842-850 | A program that is one comment line reads as a single unit value |
| ReaderLaws.NumberLiteralKind | wisp.cpp:873-885 | A literal starting with a digit reads as a float exactly when its scanned run holds a dot, and otherwise as the integer its digits spell |
| ReaderLaws.LiteralAsWrittenMisreads | wisp.cpp:880 | In `(+ 1 2.5)` the source's `substr(3, 4)` hands `1 2.` to the conversion and reads a float, while the scanned span reads as `Int(1)` |
| ReaderLaws.ParseAtomAt | wisp.cpp:909-919 | A delimited atom text reads as that atom |
| ReaderLaws.NumberWithoutDot | wisp.cpp:882-885 | A literal without a dot converts by `atoi`, negated after a minus |
| ReaderLaws.ParseIntAt | wisp.cpp:873-885 | On the reader with line 880 corrected, every integer except the smallest, as `debug` writes it and delimited, reads back as that integer |
| ReaderLaws.ParseStrAt | wisp.cpp:887-903 | The `debug` rendering of a backslash-free string reads back as that string |
| ReaderLaws.ParseDebugged | wisp.cpp:839-922 | Reading at the start of a printable value's `debug` rendering gives that value and continues right after it |
| ReaderLaws.ParseItemsDebugged | wisp.cpp:862-871 | The blank-separated renderings of printable values read back as those values, up to the closing parenthesis |
| ReaderLaws.ReadBackDebug | wisp.cpp:671-710 | On the reader with line 880 corrected, `parse(debug(v))` is `[v]` for every printable value: ints, unit, atoms, strings without backslashes, and lists and quotes of these |
| Environments.Lookup | wisp.cpp:1494-1502 | A failed lookup raises AtomNotDefined with the atom as its cause |
| Environments.Get | wisp.cpp:1427-1503 | Lookup fails only for a name that is not reserved, and then raises AtomNotDefined |
| Environments.Set | wisp.cpp:767-769 | Defining a name binds it to the value and keeps every other binding and the enclosing scope |
| Environments.Combine | wisp.cpp:754-756 | Combining adds the other scope's names and keeps the value of every name this scope already defines |
| Environments.Enclosed | wisp.cpp:783-784 | A lambda's body scope is its captured definitions enclosed by the caller's scope |
| EnvironmentLaws.ScopesOfEnclosed | wisp.cpp:1496-1499 | The scope chain of an enclosed scope is its own definitions followed by the enclosing chain |
| EnvironmentLaws.LookupDefined | wisp.cpp:1494-1502 | Lookup succeeds exactly when some scope of the chain defines the name |
| EnvironmentLaws.LookupInnermost | wisp.cpp:1494-1502 | Lookup gives the definition from the innermost scope that defines the name |
| EnvironmentLaws.ReservedWins | wisp.cpp:1427-1492 | A reserved name resolves to the same builtin in every scope, and defining it changes nothing |
| EnvironmentLaws.SetThenGet | wisp.cpp:767-769 | A non-reserved name reads back what was last defined under it |
| EnvironmentLaws.SetLeavesOthers | wisp.cpp:767-769 | Defining one name changes the lookup of no other name |
| EnvironmentLaws.CombineKeepsOwn | wisp.cpp:754-756 | After combining, an own name reads as before, and a new non-reserved name reads as the other scope's value |
| EnvironmentLaws.FirstIsHead | wisp.cpp:1461-1463 | `first` and `head` are the same native function under two names, so they are equal |
| EnvironmentLaws.LastIsPop | wisp.cpp:1460-1464 | `last` and `pop` are the same native function under two names, so they are equal |
| EnvironmentLaws.MetaResolve | wisp.cpp:1428-1431 | `eval`, `type` and `parse` are each found under their own name in every scope, whatever the scope defines |
| EnvironmentLaws.SpecialFormsResolve | wisp.cpp:1433-1440 | Each special form is found under its own name in every scope |
| EnvironmentLaws.ComparisonsResolve | wisp.cpp:1442-1448 | Each comparison builtin is found under its own name in every scope |
| EnvironmentLaws.ArithmeticResolve | wisp.cpp:1450-1455 | Each arithmetic builtin is found under its own name in every scope |
| EnvironmentLaws.ListFunctionsResolve | wisp.cpp:1457-1465 | Each list builtin is found under its own name in every scope |
| EnvironmentLaws.FunctionalResolve | wisp.cpp:1467-1470 | `map`, `filter` and `reduce` are each found under their own name in every scope |
| EnvironmentLaws.IoBuiltinsResolve | wisp.cpp:1472-1481 | Each I/O builtin is found under its own name in every scope |
| EnvironmentLaws.FormattingResolve | wisp.cpp:1483-1485 | `debug` and `display` are found under their own names in every scope |
| EnvironmentLaws.CastsResolve | wisp.cpp:1487-1489 | `int` and `float` are found under the names of the types they cast to, in every scope |
| Evaluator.Exactly | wisp.cpp:1128-1129 | The arity check passes exactly when the count matches, and otherwise raises too many or too few with the builtin as the cause |
| Evaluator.Bind | wisp.cpp:786-790 | Binding parameters keeps the enclosing scope |
| Evaluator.EvalArgs | wisp.cpp:947-951 | Evaluating arguments gives one value per argument |
| Evaluator.MapLoop | wisp.cpp:1327-1338 | `map` gives one result per item |
| Evaluator.FilterLoop | wisp.cpp:1340-1352 | `filter` keeps at most as many items as it is given |
| EvaluatorLaws.SelfEvaluating | wisp.cpp:830-831 | Numbers, strings, unit and functions evaluate to themselves and leave the scope unchanged |
| EvaluatorLaws.QuoteYieldsInner | wisp.cpp:806-807 | A quote evaluates to the quoted value, unevaluated |
| EvaluatorLaws.AtomIsLookedUp | wisp.cpp:808-809 | An atom evaluates to its binding, and raises AtomNotDefined exactly when it has none |
| EvaluatorLaws.EmptyListRaises | wisp.cpp:811-812 | Evaluating the empty list raises EvalEmptyList |
| EvaluatorLaws.CallHeadFails | wisp.cpp:816-821 | A call evaluates its head first, and an error there is the error of the whole call |
| EvaluatorLaws.CallOfBuiltin | wisp.cpp:816-828 | A builtin at the head is applied to the arguments as written, in the scope the head left |
| EvaluatorLaws.CallOfNonBuiltin | wisp.cpp:816-828 | Any other head is applied to the values of the arguments, evaluated left to right after the head; the first failing argument is the call's error |
| EvaluatorLaws.SumCall | wisp.cpp:1112-1123 | The call `(+ x y)` on two integer literals gives their integer sum in the unchanged scope, and is undefined when the sum does not fit 32 bits |
| EvaluatorLaws.PlusOfInts | wisp.cpp:1112-1123 | `+` applied to two integer literals gives their sum, or is undefined on overflow |
| EvaluatorLaws.QuoteFormKeepsArguments | wisp.cpp:816-821 | A builtin at the head of a call gets its arguments unevaluated: `(quote xs...)` gives the list of `xs` as written |
| EvaluatorLaws.LambdaArity | wisp.cpp:776-788 | A lambda given fewer arguments than parameters raises TooFewArgs, more raises TooManyArgs, and a non-atom parameter raises InvalidLambda |
| EvaluatorLaws.LambdaKeepsCallerScope | wisp.cpp:772-792 | Applying a lambda never changes the caller's scope |
| EvaluatorLaws.LambdaRunsBody | wisp.cpp:783-792 | A lambda with matching arity gives the value of its body, evaluated with the parameters bound in its captured definitions enclosed by the caller's scope |
| EvaluatorLaws.BindDefines | wisp.cpp:786-790 | Each parameter is bound to its argument, the last binding of a repeated name winning, and every other definition is kept |
| EvaluatorLaws.BindAddsOnlyParameters | wisp.cpp:786-790 | Binding parameters defines no name that is not a parameter |
| EvaluatorLaws.DefunNameInBody | wisp.cpp:783-790 | Inside a function `defun` has just bound, its own name resolves through the caller's scope to the function itself, so it can recurse; when the name was already defined, the earlier definition captured with the lambda wins |
| EvaluatorLaws.NonFunctionRaises | wisp.cpp:795-796 | Calling anything but a lambda or a builtin raises CallNonFunction |
| EvaluatorLaws.IfChooses | wisp.cpp:963-969 | `if` takes exactly three arguments and then evaluates exactly one branch, chosen by the condition's truthiness, in the scope the condition left |
| EvaluatorLaws.ScopeForgets | wisp.cpp:999-1005 | Nothing `scope` defines survives it |
| EvaluatorLaws.DefineBinds | wisp.cpp:971-978 | `define` binds the display text of its first argument to the value of its second, and gives that value |
| EvaluatorLaws.EvalBuiltin | wisp.cpp:1096-1103 | `eval` of one evaluated argument evaluates it again in the caller's scope, and otherwise raises an arity error |
| EvaluatorLaws.DefunBinds | wisp.cpp:980-990 | `defun` checks its arity and its parameter list, then binds the name to a lambda over the local definitions without evaluating anything |
| EvaluatorLaws.DefineCall | wisp.cpp:971-978 | The call `(define x e)` evaluates `e` and binds `x` to its value |
| EvaluatorLaws.DoKeepsScopeForgets | wisp.cpp:992-1005 | A `define` inside `do` stays defined afterwards, and the same `define` inside `scope` does not |
| EvaluatorLaws.LambdaFormErrors | wisp.cpp:953-961 | `lambda` needs two arguments and a parameter list, and captures the local definitions |
| EvaluatorLaws.MapCollects | wisp.cpp:1327-1338 | When the function maps each item in order to a known value, `map` gives those values in order |
| EvaluatorLaws.MapIsPointwise | wisp.cpp:1327-1338 | Conversely, when `map` of a lambda succeeds, each result is the function applied to the item at the same position |
| EvaluatorLaws.FilterKeeps | wisp.cpp:1340-1352 | `filter` keeps exactly the items the function is truthy on, in their original order |
| EvaluatorLaws.FilterTestsEveryItem | wisp.cpp:1340-1352 | Conversely, when `filter` of a lambda succeeds, every item was tested and the scope is unchanged |
| EvaluatorLaws.ReduceFolds | wisp.cpp:1354-1366 | `reduce` folds from the left, each application taking the accumulated value and the next item |
| EvaluatorLaws.ReduceEmpty | wisp.cpp:1354-1366 | `reduce` over the empty list gives back the initial value without calling the function |
| EvaluatorLaws.RangeLoopInts | wisp.cpp:1382-1385 | The `range` loop over integers collects every integer from the low bound up to, but not including, the high bound |
| EvaluatorLaws.RangeOfInts | wisp.cpp:1369-1387 | `range` of two Ints gives `[low, low+1, ..., high-1]`, and the empty list when `low >= high` |
| EvaluatorLaws.RangeErrors | wisp.cpp:1374-1378 | `range` with a missing argument is undefined; a non-number bound raises MismatchedTypes |
| EvaluatorLaws.HeadAndTail | wisp.cpp:1268-1289 | `tail` drops exactly the first item and `head` gives it; on the empty list `tail` gives the empty list and `head` is undefined |
| EvaluatorLaws.PushAllAppends | wisp.cpp:1254-1256 | Pushing items one at a time onto a list appends them in order |
| EvaluatorLaws.PushBuiltin | wisp.cpp:1248-1257 | `push` appends its further arguments to a list; a non-list can only be pushed nothing |
| EvaluatorLaws.ComparisonsOnInts | wisp.cpp:1165-1217 | The comparison builtins answer 1 or 0 as integer comparison does |
| EvaluatorLaws.PrimitiveCall | wisp.cpp:1105-1110 | An ordinary builtin evaluates its arguments first, stops at the first error, and otherwise computes its value from theirs in the scope they left |
| EvaluatorLaws.IoCall | wisp.cpp:1014-1094 | An I/O builtin whose arguments evaluate leaves the model with an external effect named by the builtin |
| EvaluatorLaws.ValueBuiltins | wisp.cpp:1219-1246 | `list` gives its arguments as a list; `type` gives the type name of one argument and `int`/`float` cast it; `type` and `int` raise an arity error for any other count |
| EvaluatorLaws.RenderBuiltins | wisp.cpp:1307-1325 | `debug` and `display` give the two renderings of one argument as a string, and raise an arity error otherwise |
| EvaluatorLaws.ParseBuiltin | wisp.cpp:1291-1305 | `parse` reads a string's forms into a list and raises InvalidArgument for anything else |
| EvaluatorLaws.ParseOfDebug | wisp.cpp:1291-1325 | On the reader with line 880 corrected, `(parse (debug v))` gives the one-item list of `v` for every printable value |
| EvaluatorLaws.PopOfPush | wisp.cpp:1248-1266 | `(pop (push l x))` gives `x` |
| EvaluatorLaws.FoldingBuiltins | wisp.cpp:1112-1145 | `+` and `*` need at least two arguments, and of two they give the operator's result |
| EvaluatorLaws.SumOfThree | wisp.cpp:1120-1122 | `+` of three arguments adds the third to the sum of the first two, and stops at the first error |
| EvaluatorLaws.BinaryBuiltins | wisp.cpp:1125-1163 | `-`, `/` and `%` take exactly two arguments and apply their operator |
| EvaluatorLaws.RunFormsSplit | wisp.cpp:941-944 | Running two runs of forms one after the other equals running them together: the second starts in the scope the first left, and an error stops both |
| EvaluatorLaws.RunProgram | wisp.cpp:939-945 | A program with no forms is undefined. A longer one evaluates every form but the last in order, each in the scope the previous one left, and has the value of the last form in the scope they leave; a single form is just evaluated |

## Left out

- The I/O builtins `print`, `input`, `exit`/`quit`, `include`, `read-file` and
  `write-file` (wisp.cpp:1014-1094). They are still reserved names. Applying one
  evaluates its arguments and then stops with an `External` failure.
- `read_file_contents`, `repl` and `main` (wisp.cpp:24-39, 1390-1524): process and
  stream plumbing.
- Floating point. Conversion, arithmetic, `fmod`, comparison, `atof`, the
  truncation to `int` and the rendering of floats are fields of the `Host`
  parameter, and nothing about IEEE arithmetic is assumed. The broken `as_float`
  (wisp.cpp:253-255) is not used by the core.
- The addresses `debug` and `display` print for builtins are a `Host` field too.
- Error text and the scope snapshot an error carries (wisp.cpp:137-154, 740-765).
  An error is modelled as its kind and its cause value.
- Characters outside ASCII. `isspace`, `isdigit`, `isalpha` and `ispunct` are the
  classic C-locale classes over `char`.
- Native stack depth. A fuel bound replaces it: every call between the evaluator's
  functions spends one unit, and running out is `OutOfFuel`.
- Evaluator.RunForms: every top-level form gets the whole fuel for itself; the
  source has no such bound.
- EvaluatorLaws.MapCollects, EvaluatorLaws.FilterKeeps and EvaluatorLaws.ReduceFolds
  state each application at the fuel left at its turn, so they do not say how much
  fuel a whole call needs.
- C undefined behaviour is modelled as an `Undefined(reason)` failure rather than a
  precondition, so every input stays callable. This covers `int` overflow, `atoi`
  out of range, a zero divisor, `INT_MIN / -1`, `head` or `pop` of an empty list,
  missing arguments to `map`, `filter`, `reduce` and `range`, and an empty program
  given to `run`.
- ReaderLaws.ReadBackDebug: does not cover floats, builtins, lambdas or strings
  containing a backslash. `debug` does not escape backslashes, and the reader
  treats one as escaping the next character, so such strings do not read back.
- ReaderLaws.ParseIntAt: excludes the smallest `int`. Its magnitude does not fit
  `atoi`, so reading it back is undefined.
- Reader.ReadNumber, ReaderLaws.ParseIntAt, ReaderLaws.ReadBackDebug and
  EvaluatorLaws.ParseOfDebug hold of the reader with line 880 corrected. On the line
  as written, the converted text runs on past the literal. They then also need no
  `.` anywhere after an integer literal in the text: `(abc 1 .)` would read its `1`
  back as a float.
- ReaderLaws.UnterminatedString and ReaderLaws.UnterminatedStringInList: stated for
  a literal opened at the start of the program or of its first list. A literal
  opened after other forms is covered at the form level by
  ReaderLaws.StringNeverClosed, which does not follow the reading of the forms
  before it. A text ending in a backslash is left out: the scan steps over the
  terminating NUL, which is undefined.
- EnvironmentLaws.FirstIsHead and EnvironmentLaws.LastIsPop: the aliases are proved
  for these two names only; `quit` as a further name of `exit` has no lemma. The
  `...Resolve` lemmas cover each builtin under its own name.
- EvaluatorLaws.SumOfThree: the left fold of `+` and `*` is stated for up to three
  arguments and not for any number of them.

Behaviours of the code that are easy to misread, which the model follows:

- `combine` uses `std::map::insert`, which keeps the keys the scope already has.
- Only `\"` is unescaped in a string literal.
- Only one comment before a form is handled. A second `;` is read as an atom.
- `head` of an empty list is undefined behaviour, not an error.
- A lambda captures all local definitions of the scope it is made in, not only its
  free variables.
- There are no `for` or `while` forms.
- `run` on a program with no forms is undefined behaviour.

## Findings

| source | as written | input that shows it | evidently intended | confidence | as-written member | corrected member |
|---|---|---|---|---|---|---|
| wisp.cpp:880 | `s.substr(save_ptr, ptr)` passes the end index where `substr` expects a length, so the literal text runs on past the number | `(+ 1 2.5)`: the literal `1` is handed to the conversion as `1 2.`, whose dot makes it a float | the text from `save_ptr` up to `ptr`, that is `s.substr(save_ptr, ptr - save_ptr)` | not executed | ReaderLaws.LiteralAsWrittenMisreads | ReaderLaws.NumberLiteralKind |
