/** The evaluator: `Value::eval` and `Value::apply`, the builtins, and `run`.
    Evaluation may define names in the scope it is given, so every step returns the
    scope as it is afterwards together with the value. A program need not
    terminate; `fuel` bounds the number of nested evaluation steps, and running out
    of it is reported as `OutOfFuel` rather than as a result of the program. */
module Evaluator {
  import opened Wrappers
  import opened Int32
  import opened Values
  import opened Render
  import opened Reader
  import opened Environments

  /** A value computed and the scope after computing it. */
  datatype Outcome = Outcome(value: Value, env: Env)

  /** Values computed one after another and the scope after the last of them. */
  datatype Outcomes = Outcomes(values: seq<Value>, env: Env)

  /** The arity check of most builtins: exactly `n` arguments, else too many or
      too few, reported with the builtin itself as the cause. */
  function Exactly(op: Op, n: nat, args: seq<Value>): (r: Res<seq<Value>>)
    ensures r.Ok? <==> |args| == n
    ensures r.Ok? ==> r.value == args
    ensures r.Fail? ==> r == Raise(if |args| > n then TooManyArgs else TooFewArgs, Named(op))
  {
    if |args| == n then Ok(args)
    else Raise(if |args| > n then TooManyArgs else TooFewArgs, Named(op))
  }

  function FromBool(b: bool): Value {
    Int(if b then 1 else 0)
  }

  /** `+` or `*` applied left to right over the remaining arguments. */
  function FoldArith(h: Host, op: ArithOp, acc: Value, xs: seq<Value>): Res<Value>
    decreases |xs|
  {
    if |xs| == 0 then Ok(acc)
    else
      var next :- Arith(h, op, acc, xs[0]);
      FoldArith(h, op, next, xs[1..])
  }

  /** `Value::push` of each item in turn. */
  function PushAll(v: Value, xs: seq<Value>): Res<Value>
    decreases |xs|
  {
    if |xs| == 0 then Ok(v)
    else
      var next :- Push(v, xs[0]);
      PushAll(next, xs[1..])
  }

  /** The loop of `range`: collect `low` and step it by one while it is below
      `high`. With a float bound the loop runs for as long as the host's ordering
      says so, so it is bounded by the fuel. */
  function RangeLoop(h: Host, fuel: nat, low: Value, high: Value, acc: seq<Value>): Res<Value>
    decreases fuel
  {
    if fuel == 0 then Fail(OutOfFuel)
    else
      var below :- Lt(h, low, high);
      if !below then Ok(List(acc))
      else
        var next :- Arith(h, Plus, low, Int(1));
        RangeLoop(h, fuel - 1, next, high, acc + [low])
  }

  /** The builtins that compute their result from their evaluated arguments alone. */
  function ApplyPrimitive(h: Host, fuel: nat, p: Primitive, args: seq<Value>): Res<Value> {
    var op := PrimOp(p);
    match p
    case TypeFn =>
      var a :- Exactly(op, 1, args);
      Ok(Str(TypeName(a[0])))
    case ParseFn =>
      var a :- Exactly(op, 1, args);
      if !a[0].Str? then Raise(InvalidArgument, a[0])
      else
        var forms :- ParseProgram(h, a[0].s);
        Ok(List(forms))
    case EqFn =>
      var a :- Exactly(op, 2, args);
      Ok(FromBool(Eq(h, a[0], a[1])))
    case NeqFn =>
      var a :- Exactly(op, 2, args);
      Ok(FromBool(!Eq(h, a[0], a[1])))
    case Greater =>
      var a :- Exactly(op, 2, args);
      var b :- Gt(h, a[0], a[1]);
      Ok(FromBool(b))
    case Less =>
      var a :- Exactly(op, 2, args);
      var b :- Lt(h, a[0], a[1]);
      Ok(FromBool(b))
    case GreaterEq =>
      var a :- Exactly(op, 2, args);
      var b :- Ge(h, a[0], a[1]);
      Ok(FromBool(b))
    case LessEq =>
      var a :- Exactly(op, 2, args);
      var b :- Le(h, a[0], a[1]);
      Ok(FromBool(b))
    case Sum =>
      if |args| < 2 then Raise(TooFewArgs, Named(op)) else FoldArith(h, Plus, args[0], args[1..])
    case Product =>
      if |args| < 2 then Raise(TooFewArgs, Named(op)) else FoldArith(h, Times, args[0], args[1..])
    case Subtract =>
      var a :- Exactly(op, 2, args);
      Arith(h, Minus, a[0], a[1])
    case Divide =>
      var a :- Exactly(op, 2, args);
      Arith(h, Over, a[0], a[1])
    case Remainder =>
      var a :- Exactly(op, 2, args);
      Arith(h, Modulo, a[0], a[1])
    case ListFn => Ok(List(args))
    case PushFn =>
      if |args| == 0 then Raise(TooFewArgs, Named(op)) else PushAll(args[0], args[1..])
    case PopFn =>
      var a :- Exactly(op, 1, args);
      var popped :- Pop(a[0]);
      Ok(popped.0)
    case HeadFn =>
      var a :- Exactly(op, 1, args);
      if !a[0].List? then Raise(BadCast, a[0])
      else if |a[0].items| == 0 then Fail(Undefined(EmptyListAccess))
      else Ok(a[0].items[0])
    case TailFn =>
      var a :- Exactly(op, 1, args);
      if !a[0].List? then Raise(BadCast, a[0])
      else if |a[0].items| == 0 then Ok(List([]))
      else Ok(List(a[0].items[1..]))
    case RangeFn =>
      if |args| < 2 then Fail(Undefined(MissingArgument))
      else if !IsNumber(args[0]) then Raise(MismatchedTypes, args[0])
      else if !IsNumber(args[1]) then Raise(MismatchedTypes, args[1])
      else
        var done :- Ge(h, args[0], args[1]);
        if done then Ok(List([])) else RangeLoop(h, fuel, args[0], args[1], [])
    case DebugFn =>
      var a :- Exactly(op, 1, args);
      Ok(Str(Debug(h, a[0])))
    case DisplayFn =>
      var a :- Exactly(op, 1, args);
      Ok(Str(Display(h, a[0])))
    case IntFn =>
      var a :- Exactly(op, 1, args);
      CastToInt(h, a[0])
    case FloatFn =>
      var a :- Exactly(op, 1, args);
      CastToFloat(h, a[0])
  }

  /** A lambda's parameters bound to the arguments, one after another. */
  function Bind(env: Env, ps: seq<Value>, args: seq<Value>): (r: Env)
    requires |ps| == |args| && forall i | 0 <= i < |ps| :: ps[i].Atom?
    ensures r.parent == env.parent
    decreases |ps|
  {
    if |ps| == 0 then env else Bind(Set(env, ps[0].name, args[0]), ps[1..], args[1..])
  }

  predicate AllAtoms(ps: seq<Value>) {
    forall i | 0 <= i < |ps| :: ps[i].Atom?
  }

  // ---------------------------------------------------------------------------
  // The evaluator proper. Every call from one of these functions to another
  // spends one unit of fuel.

  /** `Value::eval`: a quote gives its inner value, an atom is looked up, a
      non-empty list is a call and every other value evaluates to itself. The head
      of a call is evaluated first; its arguments are evaluated, in order, only when
      it is not a builtin, since builtins decide for themselves. */
  function Eval(h: Host, fuel: nat, v: Value, env: Env): (r: Res<Outcome>)
    decreases fuel
  {
    if fuel == 0 then Fail(OutOfFuel)
    else match v
      case Quote(x) => Ok(Outcome(x, env))
      case Atom(a) =>
        var x :- Get(env, a);
        Ok(Outcome(x, env))
      case List(xs) =>
        if |xs| == 0 then Raise(EvalEmptyList, v)
        else
          var f :- Eval(h, fuel - 1, xs[0], env);
          if f.value.Builtin? then Apply(h, fuel - 1, f.value, xs[1..], f.env)
          else
            var args :- EvalArgs(h, fuel - 1, xs[1..], f.env);
            Apply(h, fuel - 1, f.value, args.values, args.env)
      case _ => Ok(Outcome(v, env))
  }

  /** `eval_args`: the arguments evaluated from left to right, each in the scope the
      previous one left. */
  function EvalArgs(h: Host, fuel: nat, xs: seq<Value>, env: Env): (r: Res<Outcomes>)
    ensures r.Ok? ==> |r.value.values| == |xs|
    decreases fuel
  {
    if fuel == 0 then Fail(OutOfFuel)
    else if |xs| == 0 then Ok(Outcomes([], env))
    else
      var first :- Eval(h, fuel - 1, xs[0], env);
      var rest :- EvalArgs(h, fuel - 1, xs[1..], first.env);
      Ok(Outcomes([first.value] + rest.values, rest.env))
  }

  /** The loop of `do` and `scope`: evaluate each expression in turn and keep the
      last value, which is unit when there are none. */
  function EvalSeq(h: Host, fuel: nat, xs: seq<Value>, env: Env, acc: Value): (r: Res<Outcome>)
    decreases fuel
  {
    if fuel == 0 then Fail(OutOfFuel)
    else if |xs| == 0 then Ok(Outcome(acc, env))
    else
      var first :- Eval(h, fuel - 1, xs[0], env);
      EvalSeq(h, fuel - 1, xs[1..], first.env, first.value)
  }

  /** `Value::apply`. A lambda checks its arity, then binds its parameters (which
      must all be atoms) in a copy of its captured definitions enclosed by the
      caller's scope and evaluates its body there; the caller's scope is left as it
      was. A builtin runs its native function on the caller's scope. Nothing else
      can be called. */
  function Apply(h: Host, fuel: nat, f: Value, args: seq<Value>, env: Env): (r: Res<Outcome>)
    decreases fuel
  {
    if fuel == 0 then Fail(OutOfFuel)
    else match f
      case Lambda(ps, body, captured) =>
        if |ps| > |args| then Raise(TooFewArgs, List(args))
        else if |ps| < |args| then Raise(TooManyArgs, List(args))
        else if !AllAtoms(ps) then Raise(InvalidLambda, f)
        else
          var result :- Eval(h, fuel - 1, body, Bind(Enclosed(captured, env), ps, args));
          Ok(Outcome(result.value, env))
      case Builtin(_, op) => (
        match op
        case SpecialOp(form) => ApplySpecial(h, fuel - 1, form, args, env)
        case CallbackOp(c) =>
          var a :- EvalArgs(h, fuel - 1, args, env);
          ApplyCallback(h, fuel - 1, c, a.values, a.env)
        case PrimOp(p) =>
          var a :- EvalArgs(h, fuel - 1, args, env);
          var x :- ApplyPrimitive(h, fuel - 1, p, a.values);
          Ok(Outcome(x, a.env))
        case IoOp(io) =>
          var a :- EvalArgs(h, fuel - 1, args, env);
          Fail(External(io)))
      case _ => Raise(CallNonFunction, f)
  }

  /** The builtins that receive their arguments unevaluated. `define` and `defun`
      bind a name in the scope they are given, named by the `display` text of their
      first argument; `do` evaluates in that scope and `scope` in a copy of it. A
      lambda captures the local definitions of the scope it is created in. */
  function ApplySpecial(h: Host, fuel: nat, form: SpecialForm, args: seq<Value>, env: Env): (r: Res<Outcome>)
    decreases fuel
  {
    var op := SpecialOp(form);
    if fuel == 0 then Fail(OutOfFuel)
    else match form
      case DoBlock => EvalSeq(h, fuel - 1, args, env, Unit)
      case ScopeForm =>
        var result :- EvalSeq(h, fuel - 1, args, env, Unit);
        Ok(Outcome(result.value, env))
      case QuoteForm => Ok(Outcome(List(args), env))
      case IfThenElse =>
        var a :- Exactly(op, 3, args);
        var c :- Eval(h, fuel - 1, a[0], env);
        if Truthy(h, c.value) then Eval(h, fuel - 1, a[1], c.env) else Eval(h, fuel - 1, a[2], c.env)
      case Define =>
        var a :- Exactly(op, 2, args);
        var result :- Eval(h, fuel - 1, a[1], env);
        Ok(Outcome(result.value, Set(result.env, Display(h, a[0]), result.value)))
      case Defun =>
        var a :- Exactly(op, 3, args);
        if !a[1].List? then Raise(InvalidLambda, Named(op))
        else
          var f := Lambda(a[1].items, a[2], env.defs);
          Ok(Outcome(f, Set(env, Display(h, a[0]), f)))
      case LambdaForm =>
        if |args| < 2 then Raise(TooFewArgs, Named(op))
        else if !args[0].List? then Raise(InvalidLambda, Named(op))
        else Ok(Outcome(Lambda(args[0].items, args[1], env.defs), env))
  }

  /** The builtins that call back into the evaluator with their evaluated
      arguments. `map`, `filter` and `reduce` read their list argument before
      anything else; a missing argument is past the end of the argument vector. */
  function ApplyCallback(h: Host, fuel: nat, c: Callback, args: seq<Value>, env: Env): (r: Res<Outcome>)
    decreases fuel
  {
    if fuel == 0 then Fail(OutOfFuel)
    else match c
      case EvalFn =>
        var a :- Exactly(CallbackOp(EvalFn), 1, args);
        Eval(h, fuel - 1, a[0], env)
      case MapList =>
        if |args| < 2 then Fail(Undefined(MissingArgument))
        else if !args[1].List? then Raise(BadCast, args[1])
        else
          var mapped :- MapLoop(h, fuel - 1, args[0], args[1].items, env);
          Ok(Outcome(List(mapped.values), mapped.env))
      case FilterList =>
        if |args| < 2 then Fail(Undefined(MissingArgument))
        else if !args[1].List? then Raise(BadCast, args[1])
        else
          var kept :- FilterLoop(h, fuel - 1, args[0], args[1].items, env);
          Ok(Outcome(List(kept.values), kept.env))
      case ReduceList =>
        if |args| < 3 then Fail(Undefined(MissingArgument))
        else if !args[2].List? then Raise(BadCast, args[2])
        else ReduceLoop(h, fuel - 1, args[0], args[2].items, env, args[1])
  }

  /** The loop of `map`: apply the function to each item alone, in order. */
  function MapLoop(h: Host, fuel: nat, f: Value, xs: seq<Value>, env: Env): (r: Res<Outcomes>)
    ensures r.Ok? ==> |r.value.values| == |xs|
    decreases fuel
  {
    if fuel == 0 then Fail(OutOfFuel)
    else if |xs| == 0 then Ok(Outcomes([], env))
    else
      var first :- Apply(h, fuel - 1, f, [xs[0]], env);
      var rest :- MapLoop(h, fuel - 1, f, xs[1..], first.env);
      Ok(Outcomes([first.value] + rest.values, rest.env))
  }

  /** The loop of `filter`: keep the items the function is truthy on, in order. */
  function FilterLoop(h: Host, fuel: nat, f: Value, xs: seq<Value>, env: Env): (r: Res<Outcomes>)
    ensures r.Ok? ==> |r.value.values| <= |xs|
    decreases fuel
  {
    if fuel == 0 then Fail(OutOfFuel)
    else if |xs| == 0 then Ok(Outcomes([], env))
    else
      var test :- Apply(h, fuel - 1, f, [xs[0]], env);
      var rest :- FilterLoop(h, fuel - 1, f, xs[1..], test.env);
      Ok(Outcomes((if Truthy(h, test.value) then [xs[0]] else []) + rest.values, rest.env))
  }

  /** The loop of `reduce`: fold the function over the items from the left,
      starting from the initial value. */
  function ReduceLoop(h: Host, fuel: nat, f: Value, xs: seq<Value>, env: Env, acc: Value): (r: Res<Outcome>)
    decreases fuel
  {
    if fuel == 0 then Fail(OutOfFuel)
    else if |xs| == 0 then Ok(Outcome(acc, env))
    else
      var next :- Apply(h, fuel - 1, f, [acc, xs[0]], env);
      ReduceLoop(h, fuel - 1, f, xs[1..], next.env, next.value)
  }

  // ---------------------------------------------------------------------------
  // Running a program

  /** Every form but the last evaluated for its effect on the scope, then the last
      one for its value; each top-level form has the whole fuel to itself. */
  function RunForms(h: Host, fuel: nat, forms: seq<Value>, env: Env): (r: Res<Outcome>)
    requires |forms| > 0
    decreases |forms|
  {
    if |forms| == 1 then Eval(h, fuel, forms[0], env)
    else
      var first :- Eval(h, fuel, forms[0], env);
      RunForms(h, fuel, forms[1..], first.env)
  }

  /** `run`: read the program, then evaluate its forms in order. A program with no
      forms has no last form to take the value of. */
  function Run(h: Host, fuel: nat, code: string, env: Env): (r: Res<Outcome>) {
    var forms :- ParseProgram(h, code);
    if |forms| == 0 then Fail(Undefined(EmptyListAccess)) else RunForms(h, fuel, forms, env)
  }
}
