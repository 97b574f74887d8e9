/** The value algebra of the interpreter: the tagged union every runtime datum and
    every piece of source code is made of, and the operations on it (equality,
    truthiness, ordering, the five arithmetic operators, casts, list push/pop and
    type names). */
module Values {
  import opened Wrappers
  import opened Int32

  /** A C++ `double`, kept opaque: its 64 bits, with no IEEE-754 semantics assumed. */
  datatype Double = Double(bits: bv64)

  /** Builtins that receive their arguments unevaluated and decide themselves what
      to evaluate and in which environment. */
  datatype SpecialForm = DoBlock | IfThenElse | ScopeForm | QuoteForm | Defun | Define | LambdaForm

  /** Builtins that evaluate their arguments and then call back into the evaluator. */
  datatype Callback = EvalFn | MapList | FilterList | ReduceList

  /** Builtins that evaluate their arguments and then compute a value from them alone. */
  datatype Primitive =
    | TypeFn | ParseFn
    | EqFn | NeqFn | Greater | Less | GreaterEq | LessEq
    | Sum | Subtract | Product | Divide | Remainder
    | ListFn | PushFn | PopFn | HeadFn | TailFn | RangeFn
    | DebugFn | DisplayFn | IntFn | FloatFn

  /** Builtins that talk to the outside world. */
  datatype IoBuiltin = Exit | Print | Input | Include | ReadFile | WriteFile

  /** The native function a builtin value points at. Two builtin values are equal
      exactly when they point at the same native function. */
  datatype Op =
    | SpecialOp(form: SpecialForm)
    | CallbackOp(callback: Callback)
    | PrimOp(prim: Primitive)
    | IoOp(io: IoBuiltin)

  /** Everything the interpreter's behaviour depends on that is the host's business:
      floating-point arithmetic and formatting, and the addresses of native functions
      (which `debug` and `display` print for builtins). */
  datatype Host = Host(
    intToDouble: int -> Double,                 // `float(i)` widened back to `double`
    atof: string -> Double,                     // C `atof`
    add: (Double, Double) -> Double,
    sub: (Double, Double) -> Double,
    mul: (Double, Double) -> Double,
    div: (Double, Double) -> Double,
    fmod: (Double, Double) -> Double,
    eq: (Double, Double) -> bool,
    lt: (Double, Double) -> bool,
    truncate: Double -> Option<int>,            // `int(f)`, None when not finite
    show: Double -> string,                     // `ostringstream << f`
    address: Op -> int)                         // `long(fn)` for a native function

  /** A runtime value, which is also the representation of source code.
      A lambda keeps its parameter list as written (the elements are checked to be
      atoms only when it is applied), its body, and a copy of the local bindings of
      the environment it was created in. */
  datatype Value =
    | Quote(inner: Value)
    | Atom(name: string)
    | Int(i: int32)
    | Float(f: Double)
    | List(items: seq<Value>)
    | Str(s: string)
    | Lambda(params: seq<Value>, body: Value, captured: map<string, Value>)
    | Builtin(name: string, op: Op)
    | Unit

  /** The messages of the interpreter's `Error` exception that the core can raise. */
  datatype ErrorKind =
    | TooFewArgs | TooManyArgs | InvalidArgument | MismatchedTypes | CallNonFunction
    | InvalidLambda | InvalidBinOp | InvalidOrder | BadCast | AtomNotDefined | EvalEmptyList

  /** Situations where the C++ program has undefined behaviour. */
  datatype UndefinedBehaviour =
    | IntOverflow          // signed `int` arithmetic outside the 32-bit range
    | ZeroDivisor          // integer `/` or `%` by zero
    | FloatToInt           // `int(f)` of a double that is not finite or out of range
    | EmptyListAccess      // `list[0]` or `list[size-1]` of an empty vector
    | MissingArgument      // `args[k]` past the end of the argument vector
    | LiteralOutOfRange    // `atoi` of a literal that does not fit an `int`
    | ReadPastEnd          // reading the source text beyond its terminating NUL

  /** Why a computation of the model did not produce a value. */
  datatype Failure =
    | Raised(kind: ErrorKind, cause: Value)   // the `Error` exception, with its cause
    | Malformed                               // the reader's `std::runtime_error`
    | Undefined(why: UndefinedBehaviour)      // no behaviour is defined; the model stops
    | External(io: IoBuiltin)                 // an I/O builtin; outside the model
    | OutOfFuel                               // the evaluation step budget ran out

  type Res<T> = Result<T, Failure>

  function Raise<T>(kind: ErrorKind, cause: Value): Res<T> {
    Fail(Raised(kind, cause))
  }

  /** An integer result: defined only when it fits an `int`. */
  function IntResult(n: int): (r: Res<Value>)
    ensures r.Ok? <==> InRange(n)
    ensures r.Ok? ==> r.value == Int(n)
    ensures r.Fail? ==> r.error == Undefined(IntOverflow)
  {
    if InRange(n) then Ok(Int(n)) else Fail(Undefined(IntOverflow))
  }

  predicate IsNumber(v: Value) {
    v.Int? || v.Float?
  }

  /** `cast_to_float` on a value already known to be a number. */
  function ToDouble(h: Host, v: Value): Double
    requires IsNumber(v)
  {
    if v.Float? then v.f else h.intToDouble(v.i)
  }

  // ---------------------------------------------------------------------------
  // Type names

  const QUOTE_TYPE := "quote"
  const ATOM_TYPE := "atom"
  const INT_TYPE := "int"
  const FLOAT_TYPE := "float"
  const LIST_TYPE := "list"
  const STRING_TYPE := "string"
  const FUNCTION_TYPE := "function"
  const UNIT_TYPE := "unit"

  function TypeName(v: Value): string {
    match v
    case Quote(_) => QUOTE_TYPE
    case Atom(_) => ATOM_TYPE
    case Int(_) => INT_TYPE
    case Float(_) => FLOAT_TYPE
    case List(_) => LIST_TYPE
    case Str(_) => STRING_TYPE
    case Lambda(_, _, _) => FUNCTION_TYPE
    case Builtin(_, _) => FUNCTION_TYPE
    case Unit => UNIT_TYPE
  }

  /** Whether two values are of the same variant. */
  predicate SameVariant(a: Value, b: Value) {
    match a
    case Quote(_) => b.Quote?
    case Atom(_) => b.Atom?
    case Int(_) => b.Int?
    case Float(_) => b.Float?
    case List(_) => b.List?
    case Str(_) => b.Str?
    case Lambda(_, _, _) => b.Lambda?
    case Builtin(_, _) => b.Builtin?
    case Unit => b.Unit?
  }

  /** Type names tell variants apart, except that lambdas and builtins are both
      reported as functions. */
  lemma TypeNameDistinguishes(a: Value, b: Value)
    ensures TypeName(a) == TypeName(b) <==>
              SameVariant(a, b) || ((a.Lambda? || a.Builtin?) && (b.Lambda? || b.Builtin?))
  {
  }

  // ---------------------------------------------------------------------------
  // Equality and truthiness

  /** `operator==`: an integer and a float compare after the integer is converted;
      otherwise values of different variants are never equal; lists compare item by
      item; lambdas compare their parameters and body but not their captured
      bindings; builtins compare the native function they point at. */
  function Eq(h: Host, a: Value, b: Value): (r: bool)
    ensures a.Int? && b.Int? ==> (r <==> a.i == b.i)
    ensures a.Int? && b.Float? ==> (r <==> h.eq(h.intToDouble(a.i), b.f))
    ensures a.Float? && b.Int? ==> (r <==> h.eq(a.f, h.intToDouble(b.i)))
    ensures !SameVariant(a, b) && !(IsNumber(a) && IsNumber(b)) ==> !r
    decreases a
  {
    match a
    case Float(x) => if b.Int? then h.eq(x, h.intToDouble(b.i)) else b.Float? && h.eq(x, b.f)
    case Int(x) => if b.Float? then h.eq(h.intToDouble(x), b.f) else b.Int? && x == b.i
    case Builtin(_, p) => b.Builtin? && p == b.op
    case Str(x) => b.Str? && x == b.s
    case Atom(x) => b.Atom? && x == b.name
    case Lambda(ps, body, _) => b.Lambda? && EqSeq(h, ps, b.params) && Eq(h, body, b.body)
    case List(xs) => b.List? && EqSeq(h, xs, b.items)
    case Quote(x) => b.Quote? && Eq(h, x, b.inner)
    case Unit => b.Unit?
  }

  /** `operator==` of two vectors of values: same length, equal item by item. */
  function EqSeq(h: Host, xs: seq<Value>, ys: seq<Value>): (r: bool)
    ensures r ==> |xs| == |ys|
    decreases xs
  {
    |xs| == |ys| && (|xs| == 0 || (Eq(h, xs[0], ys[0]) && EqSeq(h, xs[1..], ys[1..])))
  }

  /** `as_bool`: every value is true except those equal to the integer 0. */
  predicate Truthy(h: Host, v: Value) {
    !Eq(h, v, Int(0))
  }

  // ---------------------------------------------------------------------------
  // Ordering

  /** `operator<`: the right operand must be a number (else InvalidBinOp), then the
      left one (else InvalidOrder); a float on either side promotes the other. */
  function Lt(h: Host, a: Value, b: Value): (r: Res<bool>)
    ensures r.Fail? ==> r.error.Raised? && r.error.cause == a
  {
    if !IsNumber(b) then Raise(InvalidBinOp, a)
    else match a
      case Float(x) => Ok(h.lt(x, ToDouble(h, b)))
      case Int(x) => if b.Float? then Ok(h.lt(h.intToDouble(x), b.f)) else Ok(x < b.i)
      case _ => Raise(InvalidOrder, a)
  }

  /** `operator>=`, defined in the source as the negation of `<`. */
  function Ge(h: Host, a: Value, b: Value): Res<bool> {
    var lt :- Lt(h, a, b);
    Ok(!lt)
  }

  /** `operator<=`: equal values are ordered without consulting `<` at all. */
  function Le(h: Host, a: Value, b: Value): Res<bool> {
    if Eq(h, a, b) then Ok(true) else Lt(h, a, b)
  }

  /** `operator>`, defined in the source as the negation of `<=`. */
  function Gt(h: Host, a: Value, b: Value): Res<bool> {
    var le :- Le(h, a, b);
    Ok(!le)
  }

  // ---------------------------------------------------------------------------
  // Arithmetic

  datatype ArithOp = Plus | Minus | Times | Over | Modulo

  function FloatArith(h: Host, op: ArithOp, x: Double, y: Double): Double {
    match op
    case Plus => h.add(x, y)
    case Minus => h.sub(x, y)
    case Times => h.mul(x, y)
    case Over => h.div(x, y)
    case Modulo => h.fmod(x, y)
  }

  /** Integer arithmetic on two `int`s, with every case C++ leaves undefined. */
  function IntArith(op: ArithOp, x: int32, y: int32): (r: Res<Value>)
    ensures r.Ok? ==> r.value.Int?
    ensures r.Fail? ==> r.error.Undefined?
  {
    match op
    case Plus => IntResult(x + y)
    case Minus => IntResult(x - y)
    case Times => IntResult(x * y)
    case Over => if y == 0 then Fail(Undefined(ZeroDivisor)) else IntResult(TruncDiv(x, y))
    case Modulo =>
      if y == 0 then Fail(Undefined(ZeroDivisor))
      else if !InRange(TruncDiv(x, y)) then Fail(Undefined(IntOverflow))
      else IntResult(TruncRem(x, y))
  }

  /** The five operators `+ - * / %`. A unit right operand absorbs every one of them.
      `+` then rejects a number paired with a non-number and concatenates strings
      with strings and lists with lists; the other four require a numeric right
      operand. Numbers promote to float when either side is a float. */
  function Arith(h: Host, op: ArithOp, a: Value, b: Value): (r: Res<Value>)
    ensures b.Unit? ==> r == Ok(Unit)
    ensures IsNumber(a) && IsNumber(b) && r.Ok? ==> IsNumber(r.value)
    ensures r.Fail? ==> r.error.Undefined? || r.error == Raised(InvalidBinOp, a)
  {
    if b.Unit? then Ok(Unit)
    else if op == Plus then
      if (IsNumber(a) || IsNumber(b)) && !(IsNumber(a) && IsNumber(b)) then Raise(InvalidBinOp, a)
      else match a
        case Float(x) => Ok(Float(h.add(x, ToDouble(h, b))))
        case Int(x) => if b.Float? then Ok(Float(h.add(h.intToDouble(x), b.f))) else IntArith(Plus, x, b.i)
        case Str(x) => if b.Str? then Ok(Str(x + b.s)) else Raise(InvalidBinOp, a)
        case List(xs) => if b.List? then Ok(List(PushEach(xs, b.items))) else Raise(InvalidBinOp, a)
        case Unit => Ok(Unit)
        case _ => Raise(InvalidBinOp, a)
    else if !IsNumber(b) then Raise(InvalidBinOp, a)
    else match a
      case Float(x) => Ok(Float(FloatArith(h, op, x, ToDouble(h, b))))
      case Int(x) => if b.Float? then Ok(Float(FloatArith(h, op, h.intToDouble(x), b.f))) else IntArith(op, x, b.i)
      case Unit => Ok(Unit)
      case _ => Raise(InvalidBinOp, a)
  }

  /** The loop list `+` runs: push each item of `ys`, in order, onto a copy of `xs`. */
  function PushEach(xs: seq<Value>, ys: seq<Value>): seq<Value>
    decreases |ys|
  {
    if |ys| == 0 then xs else PushEach(xs + [ys[0]], ys[1..])
  }

  /** Pushing the items one at a time is concatenation: the left items come first,
      in order, followed by the right ones. */
  lemma {:induction false} PushEachConcatenates(xs: seq<Value>, ys: seq<Value>)
    ensures PushEach(xs, ys) == xs + ys
    decreases |ys|
  {
    if |ys| > 0 {
      PushEachConcatenates(xs + [ys[0]], ys[1..]);
      assert xs + [ys[0]] + ys[1..] == xs + ys;
    }
  }

  // ---------------------------------------------------------------------------
  // Casts and list mutation

  /** `cast_to_int`: integers unchanged, floats truncated toward zero. */
  function CastToInt(h: Host, v: Value): (r: Res<Value>)
    ensures r.Ok? ==> r.value.Int? && (v.Int? ==> r.value == v)
    ensures !IsNumber(v) ==> r == Raise(BadCast, v)
  {
    match v
    case Int(_) => Ok(v)
    case Float(f) =>
      (match h.truncate(f)
       case None => Fail(Undefined(FloatToInt))
       case Some(n) => if InRange(n) then Ok(Int(n)) else Fail(Undefined(FloatToInt)))
    case _ => Raise(BadCast, v)
  }

  /** `cast_to_float`: floats unchanged, integers converted. */
  function CastToFloat(h: Host, v: Value): (r: Res<Value>)
    ensures r.Ok? ==> r.value.Float? && (v.Float? ==> r.value == v)
    ensures !IsNumber(v) ==> r == Raise(BadCast, v)
  {
    match v
    case Float(_) => Ok(v)
    case Int(n) => Ok(Float(h.intToDouble(n)))
    case _ => Raise(BadCast, v)
  }

  /** `Value::push`: append to a list; anything else is a type mismatch. */
  function Push(v: Value, x: Value): (r: Res<Value>)
    ensures r.Ok? <==> v.List?
    ensures r.Ok? ==> r.value.List? && |r.value.items| == |v.items| + 1
    ensures r.Ok? ==> r.value.items[..|v.items|] == v.items && r.value.items[|v.items|] == x
    ensures r.Fail? ==> r == Raise(MismatchedTypes, v)
  {
    if v.List? then Ok(List(v.items + [x])) else Raise(MismatchedTypes, v)
  }

  /** `Value::pop`: the last item of a list, and the list without it. */
  function Pop(v: Value): (r: Res<(Value, Value)>)
    ensures !v.List? ==> r == Raise(MismatchedTypes, v)
    ensures v.List? && |v.items| == 0 ==> r == Fail(Undefined(EmptyListAccess))
    ensures r.Ok? ==> v.List? && r.value.1.List? && v.items == r.value.1.items + [r.value.0]
  {
    if !v.List? then Raise(MismatchedTypes, v)
    else if |v.items| == 0 then Fail(Undefined(EmptyListAccess))
    else Ok((v.items[|v.items| - 1], List(v.items[..|v.items| - 1])))
  }

  /** Popping what was just pushed gives back the pushed item and the original list. */
  lemma PopAfterPush(l: Value, x: Value)
    requires l.List?
    ensures Push(l, x).Ok? && Pop(Push(l, x).value) == Ok((x, l))
  {
    var pushed := l.items + [x];
    assert pushed[..|pushed| - 1] == l.items;
  }
}
