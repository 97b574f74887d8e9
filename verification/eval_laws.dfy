/** What evaluation and application guarantee: self-evaluation, the error cases of
    calls, which forms keep their definitions, and what the list builtins compute. */
module EvaluatorLaws {
  import opened Wrappers
  import opened Int32
  import opened Values
  import opened Render
  import opened Reader
  import opened Environments
  import opened Evaluator
  import opened Seqs
  import ReaderLaws

  // ---------------------------------------------------------------------------
  // Evaluation

  /** Numbers, strings, unit and functions evaluate to themselves. */
  lemma SelfEvaluating(h: Host, fuel: nat, v: Value, env: Env)
    requires fuel > 0
    requires v.Int? || v.Float? || v.Str? || v.Unit? || v.Lambda? || v.Builtin?
    ensures Eval(h, fuel, v, env) == Ok(Outcome(v, env))
  {
  }

  /** A quote evaluates to the quoted value, which is not evaluated. */
  lemma QuoteYieldsInner(h: Host, fuel: nat, x: Value, env: Env)
    requires fuel > 0
    ensures Eval(h, fuel, Quote(x), env) == Ok(Outcome(x, env))
  {
  }

  /** An atom evaluates to what its name is bound to, and is an error exactly when
      the name is bound nowhere. */
  lemma AtomIsLookedUp(h: Host, fuel: nat, a: string, env: Env)
    requires fuel > 0
    ensures Get(env, a).Ok? ==> Eval(h, fuel, Atom(a), env) == Ok(Outcome(Get(env, a).value, env))
    ensures Get(env, a).Fail? ==> Eval(h, fuel, Atom(a), env) == Raise(AtomNotDefined, Atom(a))
  {
  }

  /** The empty list cannot be evaluated. */
  lemma EmptyListRaises(h: Host, fuel: nat, env: Env)
    requires fuel > 0
    ensures Eval(h, fuel, List([]), env) == Raise(EvalEmptyList, List([]))
  {
  }

  /** A call evaluates its head first; an error there is the call's error. */
  lemma CallHeadFails(h: Host, fuel: nat, xs: seq<Value>, env: Env)
    requires fuel > 0 && |xs| > 0 && Eval(h, fuel - 1, xs[0], env).Fail?
    ensures Eval(h, fuel, List(xs), env) == Fail(Eval(h, fuel - 1, xs[0], env).error)
  {
  }

  /** A builtin at the head is applied to the arguments as written, in the scope
      the head left. */
  lemma CallOfBuiltin(h: Host, fuel: nat, xs: seq<Value>, env: Env)
    requires fuel > 0 && |xs| > 0
    requires Eval(h, fuel - 1, xs[0], env).Ok? && Eval(h, fuel - 1, xs[0], env).value.value.Builtin?
    ensures var f := Eval(h, fuel - 1, xs[0], env).value;
      Eval(h, fuel, List(xs), env) == Apply(h, fuel - 1, f.value, xs[1..], f.env)
  {
  }

  /** Any other head is applied to the arguments' values, evaluated from left to
      right after the head; an error in an argument is the call's error. */
  lemma CallOfNonBuiltin(h: Host, fuel: nat, xs: seq<Value>, env: Env)
    requires fuel > 0 && |xs| > 0
    requires Eval(h, fuel - 1, xs[0], env).Ok? && !Eval(h, fuel - 1, xs[0], env).value.value.Builtin?
    ensures var f := Eval(h, fuel - 1, xs[0], env).value;
      var a := EvalArgs(h, fuel - 1, xs[1..], f.env);
      Eval(h, fuel, List(xs), env) == if a.Ok? then Apply(h, fuel - 1, f.value, a.value.values, a.value.env) else Fail(a.error)
  {
  }

  /** The whole call `(+ x y)` on two integer literals: the head is looked up,
      the arguments evaluate to themselves and the sum is their integer sum, or
      undefined when it overflows. */
  lemma SumCall(h: Host, fuel: nat, x: int32, y: int32, env: Env)
    requires fuel >= 5
    ensures Eval(h, fuel, List([Atom("+"), Int(x), Int(y)]), env) ==
      if InRange(x + y) then Ok(Outcome(Int(x + y), env)) else Fail(Undefined(IntOverflow))
  {
    var xs := [Atom("+"), Int(x), Int(y)];
    AtomIsLookedUp(h, fuel - 1, "+", env);
    CallOfBuiltin(h, fuel, xs, env);
    assert xs[1..] == [Int(x), Int(y)];
    PlusOfInts(h, fuel - 1, x, y, env);
  }

  /** `+` applied to two integer literals. */
  lemma PlusOfInts(h: Host, fuel: nat, x: int32, y: int32, env: Env)
    requires fuel >= 4
    ensures Apply(h, fuel, Builtin("+", PrimOp(Sum)), [Int(x), Int(y)], env) ==
      if InRange(x + y) then Ok(Outcome(Int(x + y), env)) else Fail(Undefined(IntOverflow))
  {
    ArgsOfInts(h, fuel - 1, x, y, env);
    PrimitiveCall(h, fuel, "+", Sum, [Int(x), Int(y)], env);
    FoldingBuiltins(h, fuel - 1, Int(x), Int(y), Int(y));
  }

  /** Two integer literals evaluate to themselves as arguments. */
  lemma ArgsOfInts(h: Host, fuel: nat, x: int32, y: int32, env: Env)
    requires fuel >= 3
    ensures EvalArgs(h, fuel, [Int(x), Int(y)], env) == Ok(Outcomes([Int(x), Int(y)], env))
  {
    var xs := [Int(x), Int(y)];
    assert xs[0] == Int(x) && xs[1..] == [Int(y)];
    assert [Int(y)][0] == Int(y) && [Int(y)][1..] == [];
    assert EvalArgs(h, fuel - 2, [], env) == Ok(Outcomes([], env));
    assert [Int(y)] + [] == [Int(y)];
    assert EvalArgs(h, fuel - 1, [Int(y)], env) == Ok(Outcomes([Int(y)], env));
    assert [Int(x)] + [Int(y)] == xs;
  }

  /** A builtin at the head of a call receives its arguments as written: `quote`
      gives them back unevaluated, as a list. */
  lemma QuoteFormKeepsArguments(h: Host, fuel: nat, xs: seq<Value>, env: Env)
    requires fuel >= 3
    ensures Eval(h, fuel, List([Atom("quote")] + xs), env) == Ok(Outcome(List(xs), env))
  {
    var call := [Atom("quote")] + xs;
    var quote := Named(SpecialOp(QuoteForm));
    assert call[0] == Atom("quote") && call[1..] == xs;
    assert Eval(h, fuel - 1, Atom("quote"), env) == Ok(Outcome(quote, env));
    assert ApplySpecial(h, fuel - 2, QuoteForm, xs, env) == Ok(Outcome(List(xs), env));
    assert Apply(h, fuel - 1, quote, xs, env) == Ok(Outcome(List(xs), env));
  }

  // ---------------------------------------------------------------------------
  // Application

  /** A lambda given fewer arguments than it has parameters, or more, raises the
      matching error with the argument list as the cause. */
  lemma LambdaArity(h: Host, fuel: nat, ps: seq<Value>, body: Value, captured: map<string, Value>,
                    args: seq<Value>, env: Env)
    requires fuel > 0
    ensures |ps| > |args| ==>
      Apply(h, fuel, Lambda(ps, body, captured), args, env) == Raise(TooFewArgs, List(args))
    ensures |ps| < |args| ==>
      Apply(h, fuel, Lambda(ps, body, captured), args, env) == Raise(TooManyArgs, List(args))
    ensures |ps| == |args| && !AllAtoms(ps) ==>
      Apply(h, fuel, Lambda(ps, body, captured), args, env) == Raise(InvalidLambda, Lambda(ps, body, captured))
  {
  }

  /** Applying a lambda leaves the caller's scope as it was: definitions made while
      its body runs are local to that call. */
  lemma LambdaKeepsCallerScope(h: Host, fuel: nat, f: Value, args: seq<Value>, env: Env)
    requires f.Lambda?
    ensures Apply(h, fuel, f, args, env).Ok? ==> Apply(h, fuel, f, args, env).value.env == env
  {
  }

  /** A lambda with matching arity runs its body in its captured definitions with
      the parameters bound, enclosed by the caller's scope. */
  lemma LambdaRunsBody(h: Host, fuel: nat, ps: seq<Value>, body: Value, captured: map<string, Value>,
                       args: seq<Value>, env: Env)
    requires fuel > 0 && |ps| == |args| && AllAtoms(ps)
    ensures var inner := Eval(h, fuel - 1, body, Bind(Enclosed(captured, env), ps, args));
      Apply(h, fuel, Lambda(ps, body, captured), args, env).Ok? == inner.Ok? &&
      (inner.Ok? ==> Apply(h, fuel, Lambda(ps, body, captured), args, env).value.value == inner.value.value)
  {
  }

  /** The names of a parameter list of atoms, in order. */
  function Names(ps: seq<Value>): (r: seq<string>)
    requires AllAtoms(ps)
    ensures |r| == |ps| && forall i | 0 <= i < |ps| :: r[i] == ps[i].name
    decreases |ps|
  {
    if |ps| == 0 then [] else [ps[0].name] + Names(ps[1..])
  }

  /** Binding parameters defines each one's name as its argument, the last
      occurrence of a name winning, and leaves every other definition alone. */
  lemma {:induction false} BindDefines(env: Env, ps: seq<Value>, args: seq<Value>)
    requires |ps| == |args| && AllAtoms(ps)
    ensures forall i | 0 <= i < |ps| && ps[i].name !in Names(ps[i + 1..]) ::
      ps[i].name in Bind(env, ps, args).defs && Bind(env, ps, args).defs[ps[i].name] == args[i]
    ensures forall n | n in env.defs && n !in Names(ps) ::
      n in Bind(env, ps, args).defs && Bind(env, ps, args).defs[n] == env.defs[n]
    decreases |ps|
  {
    if |ps| > 0 {
      var e1 := Set(env, ps[0].name, args[0]);
      var rest := ps[1..];
      assert AllAtoms(rest) by {
        forall i | 0 <= i < |rest| ensures rest[i].Atom? { assert rest[i] == ps[i + 1]; }
      }
      BindDefines(e1, rest, args[1..]);
      var r := Bind(env, ps, args);
      assert r == Bind(e1, rest, args[1..]);
      assert Names(ps) == [ps[0].name] + Names(rest);
      forall i | 0 <= i < |ps| && ps[i].name !in Names(ps[i + 1..])
        ensures ps[i].name in r.defs && r.defs[ps[i].name] == args[i]
      {
        if i > 0 {
          assert rest[i - 1] == ps[i] && args[1..][i - 1] == args[i];
          assert rest[i - 1 + 1..] == ps[i + 1..];
        }
      }
    }
  }

  /** Binding parameters adds no name but theirs. */
  lemma {:induction false} BindAddsOnlyParameters(env: Env, ps: seq<Value>, args: seq<Value>, n: string)
    requires |ps| == |args| && AllAtoms(ps) && n !in env.defs && n !in Names(ps)
    ensures n !in Bind(env, ps, args).defs
    decreases |ps|
  {
    if |ps| > 0 {
      var rest := ps[1..];
      assert AllAtoms(rest) by {
        forall i | 0 <= i < |rest| ensures rest[i].Atom? { assert rest[i] == ps[i + 1]; }
      }
      assert Names(ps) == [ps[0].name] + Names(rest);
      BindAddsOnlyParameters(Set(env, ps[0].name, args[0]), rest, args[1..], n);
    }
  }

  /** Inside the body of a function `defun` has just bound, its own name (when no
      parameter shadows it) resolves through the caller's scope to the function
      itself, which is what makes recursion work. A name the scope already defined
      before the `defun` resolves instead to the captured earlier definition. */
  lemma DefunNameInBody(env: Env, name: string, ps: seq<Value>, body: Value, args: seq<Value>)
    requires !IsReserved(name)
    requires |ps| == |args| && AllAtoms(ps) && name !in Names(ps)
    ensures var f := Lambda(ps, body, env.defs);
      var scope := Bind(Enclosed(env.defs, Set(env, name, f)), ps, args);
      && (name !in env.defs ==> Get(scope, name) == Ok(f))
      && (name in env.defs ==> Get(scope, name) == Ok(env.defs[name]))
  {
    var f := Lambda(ps, body, env.defs);
    var caller := Set(env, name, f);
    var inner := Enclosed(env.defs, caller);
    var scope := Bind(inner, ps, args);
    assert scope.parent == Some(caller);
    if name !in env.defs {
      BindAddsOnlyParameters(inner, ps, args, name);
      assert Lookup(caller, name) == Ok(f);
    } else {
      BindDefines(inner, ps, args);
    }
  }

  /** Only lambdas and builtins can be called. */
  lemma NonFunctionRaises(h: Host, fuel: nat, f: Value, args: seq<Value>, env: Env)
    requires fuel > 0 && !f.Lambda? && !f.Builtin?
    ensures Apply(h, fuel, f, args, env) == Raise(CallNonFunction, f)
  {
  }

  // ---------------------------------------------------------------------------
  // Special forms

  /** `if` takes exactly three arguments, then evaluates the condition and exactly
      one of the branches, chosen by the condition's truthiness, in the scope the
      condition left. */
  lemma IfChooses(h: Host, fuel: nat, args: seq<Value>, env: Env)
    requires fuel > 0
    ensures |args| != 3 ==>
      ApplySpecial(h, fuel, IfThenElse, args, env) ==
        Raise(if |args| > 3 then TooManyArgs else TooFewArgs, Builtin("if", SpecialOp(IfThenElse)))
    ensures |args| == 3 && Eval(h, fuel - 1, args[0], env).Ok? ==>
      var c := Eval(h, fuel - 1, args[0], env).value;
      ApplySpecial(h, fuel, IfThenElse, args, env) ==
        Eval(h, fuel - 1, if Truthy(h, c.value) then args[1] else args[2], c.env)
  {
  }

  /** `scope` runs its body on a copy of the scope, so nothing it defines survives. */
  lemma ScopeForgets(h: Host, fuel: nat, args: seq<Value>, env: Env)
    ensures ApplySpecial(h, fuel, ScopeForm, args, env).Ok? ==>
      ApplySpecial(h, fuel, ScopeForm, args, env).value.env == env
  {
  }

  /** `define` binds the name its first argument displays as to the value of its
      second, in the scope that evaluation left, and yields that value. */
  lemma DefineBinds(h: Host, fuel: nat, args: seq<Value>, env: Env)
    requires fuel > 0 && |args| == 2 && Eval(h, fuel - 1, args[1], env).Ok?
    ensures var o := Eval(h, fuel - 1, args[1], env).value;
      ApplySpecial(h, fuel, Define, args, env) == Ok(Outcome(o.value, Set(o.env, Display(h, args[0]), o.value)))
    ensures var o := Eval(h, fuel - 1, args[1], env).value;
      !IsReserved(Display(h, args[0])) ==>
        Get(ApplySpecial(h, fuel, Define, args, env).value.env, Display(h, args[0])) == Ok(o.value)
  {
  }

  /** `eval` evaluates its one evaluated argument again, in the caller's scope. */
  lemma EvalBuiltin(h: Host, fuel: nat, args: seq<Value>, env: Env)
    requires fuel > 0
    ensures |args| == 1 ==> ApplyCallback(h, fuel, EvalFn, args, env) == Eval(h, fuel - 1, args[0], env)
    ensures |args| > 1 ==>
      ApplyCallback(h, fuel, EvalFn, args, env) == Raise(TooManyArgs, Builtin("eval", CallbackOp(EvalFn)))
    ensures |args| == 0 ==>
      ApplyCallback(h, fuel, EvalFn, args, env) == Raise(TooFewArgs, Builtin("eval", CallbackOp(EvalFn)))
  {
  }

  /** `defun` binds its name to a lambda over the local definitions, without
      evaluating anything; a parameter part that is not a list is rejected. */
  lemma DefunBinds(h: Host, fuel: nat, args: seq<Value>, env: Env)
    requires fuel > 0
    ensures |args| != 3 ==>
      ApplySpecial(h, fuel, Defun, args, env) == Raise(if |args| > 3 then TooManyArgs else TooFewArgs, Builtin("defun", SpecialOp(Defun)))
    ensures |args| == 3 && !args[1].List? ==>
      ApplySpecial(h, fuel, Defun, args, env) == Raise(InvalidLambda, Builtin("defun", SpecialOp(Defun)))
    ensures |args| == 3 && args[1].List? ==>
      var f := Lambda(args[1].items, args[2], env.defs);
      var r := ApplySpecial(h, fuel, Defun, args, env);
      r.Ok? && r.value.value == f && r.value.env.parent == env.parent &&
      (!IsReserved(Display(h, args[0])) ==> Get(r.value.env, Display(h, args[0])) == Ok(f))
  {
  }

  /** Evaluating the call `(define x e)`: the head names the builtin, which binds
      `x` to the value of `e`. */
  lemma DefineCall(h: Host, fuel: nat, x: string, e: Value, env: Env)
    requires fuel >= 4 && Eval(h, fuel - 3, e, env).Ok?
    ensures var o := Eval(h, fuel - 3, e, env).value;
      Eval(h, fuel, List([Atom("define"), Atom(x), e]), env) == Ok(Outcome(o.value, Set(o.env, x, o.value)))
  {
    var o := Eval(h, fuel - 3, e, env).value;
    var d := List([Atom("define"), Atom(x), e]);
    var define := Named(SpecialOp(Define));
    var after := Outcome(o.value, Set(o.env, x, o.value));
    assert Display(h, Atom(x)) == x;
    assert Eval(h, fuel - 1, Atom("define"), env) == Ok(Outcome(define, env));
    assert d.items[1..] == [Atom(x), e];
    assert ApplySpecial(h, fuel - 2, Define, [Atom(x), e], env) == Ok(after);
    assert Apply(h, fuel - 1, define, [Atom(x), e], env) == Ok(after);
  }

  /** A `define` inside `do` stays defined afterwards; the same `define` inside
      `scope` does not. */
  lemma DoKeepsScopeForgets(h: Host, fuel: nat, x: string, e: Value, env: Env)
    requires fuel >= 6 && Eval(h, fuel - 5, e, env).Ok?
    ensures var o := Eval(h, fuel - 5, e, env).value;
      var d := List([Atom("define"), Atom(x), e]);
      ApplySpecial(h, fuel, DoBlock, [d], env) == Ok(Outcome(o.value, Set(o.env, x, o.value))) &&
      ApplySpecial(h, fuel, ScopeForm, [d], env) == Ok(Outcome(o.value, env))
  {
    var o := Eval(h, fuel - 5, e, env).value;
    var d := List([Atom("define"), Atom(x), e]);
    var after := Outcome(o.value, Set(o.env, x, o.value));
    DefineCall(h, fuel - 2, x, e, env);
    assert EvalSeq(h, fuel - 2, [d][1..], after.env, after.value) == Ok(after);
    assert EvalSeq(h, fuel - 1, [d], env, Unit) == Ok(after);
  }

  /** `lambda` needs a parameter list and a body. */
  lemma LambdaFormErrors(h: Host, fuel: nat, args: seq<Value>, env: Env)
    requires fuel > 0
    ensures |args| < 2 ==>
      ApplySpecial(h, fuel, LambdaForm, args, env) == Raise(TooFewArgs, Builtin("lambda", SpecialOp(LambdaForm)))
    ensures |args| >= 2 && !args[0].List? ==>
      ApplySpecial(h, fuel, LambdaForm, args, env) == Raise(InvalidLambda, Builtin("lambda", SpecialOp(LambdaForm)))
    ensures |args| >= 2 && args[0].List? ==>
      ApplySpecial(h, fuel, LambdaForm, args, env) == Ok(Outcome(Lambda(args[0].items, args[1], env.defs), env))
  {
  }

  // ---------------------------------------------------------------------------
  // List builtins

  /** The items a filter keeps: those whose flag is set, in their original order. */
  function Kept(xs: seq<Value>, keep: seq<bool>): (r: seq<Value>)
    requires |keep| == |xs|
    decreases |xs|
  {
    if |xs| == 0 then [] else (if keep[0] then [xs[0]] else []) + Kept(xs[1..], keep[1..])
  }

  /** The consecutive integers from `lo` up to but not including `hi`. */
  function Ints(lo: int32, hi: int32): (r: seq<Value>)
    ensures |r| == if lo < hi then hi - lo else 0
    ensures forall i | 0 <= i < |r| :: r[i].Int? && r[i].i == lo + i
    decreases hi - lo
  {
    if lo >= hi then [] else [Int(lo)] + Ints(lo + 1, hi)
  }

  /** The function maps each item, given the fuel left at its turn, to the value in
      the same position, leaving the scope as it was. */
  predicate MapsTo(h: Host, fuel: nat, f: Value, xs: seq<Value>, env: Env, ys: seq<Value>) {
    |ys| == |xs| && fuel > |xs| &&
    forall i | 0 <= i < |xs| :: Apply(h, fuel - 1 - i, f, [xs[i]], env) == Ok(Outcome(ys[i], env))
  }

  lemma MapsToRest(h: Host, fuel: nat, f: Value, xs: seq<Value>, env: Env, ys: seq<Value>)
    requires |xs| > 0 && MapsTo(h, fuel, f, xs, env, ys)
    ensures Apply(h, fuel - 1, f, [xs[0]], env) == Ok(Outcome(ys[0], env))
    ensures MapsTo(h, fuel - 1, f, xs[1..], env, ys[1..])
  {
    assert Apply(h, fuel - 1 - 0, f, [xs[0]], env) == Ok(Outcome(ys[0], env));
    forall i | 0 <= i < |xs[1..]|
      ensures Apply(h, fuel - 1 - 1 - i, f, [xs[1..][i]], env) == Ok(Outcome(ys[1..][i], env))
    {
      assert xs[1..][i] == xs[i + 1] && ys[1..][i] == ys[i + 1];
    }
  }

  lemma MapsToCons(h: Host, fuel: nat, f: Value, xs: seq<Value>, env: Env, ys: seq<Value>)
    requires |xs| > 0 && |ys| == |xs| && fuel > |xs|
    requires Apply(h, fuel - 1, f, [xs[0]], env) == Ok(Outcome(ys[0], env))
    requires MapsTo(h, fuel - 1, f, xs[1..], env, ys[1..])
    ensures MapsTo(h, fuel, f, xs, env, ys)
  {
    forall i | 0 <= i < |xs|
      ensures Apply(h, fuel - 1 - i, f, [xs[i]], env) == Ok(Outcome(ys[i], env))
    {
      if i > 0 {
        assert xs[1..][i - 1] == xs[i] && ys[1..][i - 1] == ys[i];
      }
    }
  }

  /** One turn of the `map` loop. */
  lemma MapStep(h: Host, fuel: nat, f: Value, xs: seq<Value>, env: Env, first: Outcome, rest: Outcomes)
    requires fuel > 0 && |xs| > 0
    requires Apply(h, fuel - 1, f, [xs[0]], env) == Ok(first)
    requires MapLoop(h, fuel - 1, f, xs[1..], first.env) == Ok(rest)
    ensures MapLoop(h, fuel, f, xs, env) == Ok(Outcomes([first.value] + rest.values, rest.env))
  {
  }

  /** The first turn of a `map` loop that succeeds succeeded, and so did the rest. */
  lemma MapUnfold(h: Host, fuel: nat, f: Value, xs: seq<Value>, env: Env) returns (first: Outcome, rest: Outcomes)
    requires |xs| > 0 && MapLoop(h, fuel, f, xs, env).Ok?
    ensures fuel > 0 && Apply(h, fuel - 1, f, [xs[0]], env) == Ok(first)
    ensures MapLoop(h, fuel - 1, f, xs[1..], first.env) == Ok(rest)
    ensures MapLoop(h, fuel, f, xs, env) == Ok(Outcomes([first.value] + rest.values, rest.env))
  {
    first := Apply(h, fuel - 1, f, [xs[0]], env).value;
    rest := MapLoop(h, fuel - 1, f, xs[1..], first.env).value;
  }

  /** When the function maps each item, in order, to a known value without changing
      the scope, `map` collects exactly those values. */
  lemma {:induction false} MapCollects(h: Host, fuel: nat, f: Value, xs: seq<Value>, env: Env, ys: seq<Value>)
    requires MapsTo(h, fuel, f, xs, env, ys)
    ensures MapLoop(h, fuel, f, xs, env) == Ok(Outcomes(ys, env))
    decreases |xs|
  {
    if |xs| > 0 {
      MapsToRest(h, fuel, f, xs, env, ys);
      MapCollects(h, fuel - 1, f, xs[1..], env, ys[1..]);
      MapStep(h, fuel, f, xs, env, Outcome(ys[0], env), Outcomes(ys[1..], env));
      HeadTail(ys);
    } else {
      assert ys == [];
    }
  }

  /** Conversely, when `map` of a lambda succeeds, every item was mapped, in order,
      to the value in its position, and the scope is unchanged. */
  lemma {:induction false} MapIsPointwise(h: Host, fuel: nat, f: Value, xs: seq<Value>, env: Env)
    requires f.Lambda?
    ensures MapLoop(h, fuel, f, xs, env).Ok? ==>
      var r := MapLoop(h, fuel, f, xs, env).value;
      r.env == env && MapsTo(h, fuel, f, xs, env, r.values)
    decreases |xs|
  {
    if MapLoop(h, fuel, f, xs, env).Ok? {
      if |xs| > 0 {
        var first, rest := MapUnfold(h, fuel, f, xs, env);
        LambdaKeepsCallerScope(h, fuel - 1, f, [xs[0]], env);
        MapIsPointwise(h, fuel - 1, f, xs[1..], env);
        MapsToStep(h, fuel, f, xs, env, first, rest);
      } else {
        assert fuel > 0;
      }
    }
  }

  lemma MapsToStep(h: Host, fuel: nat, f: Value, xs: seq<Value>, env: Env, first: Outcome, rest: Outcomes)
    requires |xs| > 0 && fuel > 0
    requires Apply(h, fuel - 1, f, [xs[0]], env) == Ok(first) && first.env == env
    requires MapLoop(h, fuel - 1, f, xs[1..], first.env) == Ok(rest)
    requires MapLoop(h, fuel - 1, f, xs[1..], env).Ok? ==>
      MapLoop(h, fuel - 1, f, xs[1..], env).value.env == env &&
      MapsTo(h, fuel - 1, f, xs[1..], env, MapLoop(h, fuel - 1, f, xs[1..], env).value.values)
    ensures rest.env == env && MapsTo(h, fuel, f, xs, env, [first.value] + rest.values)
  {
    ConsParts(first.value, rest.values);
    MapsToCons(h, fuel, f, xs, env, [first.value] + rest.values);
  }

  /** The function was applied to each item, given the fuel left at its turn, and
      left the scope as it was. */
  predicate Tested(h: Host, fuel: nat, f: Value, xs: seq<Value>, env: Env) {
    fuel > |xs| &&
    forall i | 0 <= i < |xs| ::
      Apply(h, fuel - 1 - i, f, [xs[i]], env).Ok? && Apply(h, fuel - 1 - i, f, [xs[i]], env).value.env == env
  }

  /** Moreover each flag is the truthiness of the function's result on its item. */
  predicate Judged(h: Host, fuel: nat, f: Value, xs: seq<Value>, env: Env, keep: seq<bool>) {
    Tested(h, fuel, f, xs, env) && |keep| == |xs| &&
    forall i | 0 <= i < |xs| :: keep[i] == Truthy(h, Apply(h, fuel - 1 - i, f, [xs[i]], env).value.value)
  }

  lemma JudgedRest(h: Host, fuel: nat, f: Value, xs: seq<Value>, env: Env, keep: seq<bool>) returns (test: Outcome)
    requires |xs| > 0 && Judged(h, fuel, f, xs, env, keep)
    ensures Apply(h, fuel - 1, f, [xs[0]], env) == Ok(test) && test.env == env
    ensures keep[0] == Truthy(h, test.value)
    ensures Judged(h, fuel - 1, f, xs[1..], env, keep[1..])
  {
    test := Apply(h, fuel - 1 - 0, f, [xs[0]], env).value;
    forall i | 0 <= i < |xs[1..]|
      ensures Apply(h, fuel - 1 - 1 - i, f, [xs[1..][i]], env).Ok?
      ensures Apply(h, fuel - 1 - 1 - i, f, [xs[1..][i]], env).value.env == env
      ensures keep[1..][i] == Truthy(h, Apply(h, fuel - 1 - 1 - i, f, [xs[1..][i]], env).value.value)
    {
      assert xs[1..][i] == xs[i + 1] && keep[1..][i] == keep[i + 1];
    }
  }

  lemma TestedCons(h: Host, fuel: nat, f: Value, xs: seq<Value>, env: Env)
    requires |xs| > 0 && fuel > |xs|
    requires Apply(h, fuel - 1, f, [xs[0]], env).Ok? && Apply(h, fuel - 1, f, [xs[0]], env).value.env == env
    requires Tested(h, fuel - 1, f, xs[1..], env)
    ensures Tested(h, fuel, f, xs, env)
  {
    forall i | 0 <= i < |xs|
      ensures Apply(h, fuel - 1 - i, f, [xs[i]], env).Ok? && Apply(h, fuel - 1 - i, f, [xs[i]], env).value.env == env
    {
      if i > 0 {
        assert xs[1..][i - 1] == xs[i];
      }
    }
  }

  /** One turn of the `filter` loop. */
  lemma FilterStep(h: Host, fuel: nat, f: Value, xs: seq<Value>, env: Env, test: Outcome, rest: Outcomes)
    requires fuel > 0 && |xs| > 0
    requires Apply(h, fuel - 1, f, [xs[0]], env) == Ok(test)
    requires FilterLoop(h, fuel - 1, f, xs[1..], test.env) == Ok(rest)
    ensures FilterLoop(h, fuel, f, xs, env) ==
      Ok(Outcomes((if Truthy(h, test.value) then [xs[0]] else []) + rest.values, rest.env))
  {
  }

  /** The first turn of a `filter` loop that succeeds succeeded, and so did the rest. */
  lemma FilterUnfold(h: Host, fuel: nat, f: Value, xs: seq<Value>, env: Env) returns (test: Outcome, rest: Outcomes)
    requires |xs| > 0 && FilterLoop(h, fuel, f, xs, env).Ok?
    ensures fuel > 0 && Apply(h, fuel - 1, f, [xs[0]], env) == Ok(test)
    ensures FilterLoop(h, fuel - 1, f, xs[1..], test.env) == Ok(rest)
    ensures FilterLoop(h, fuel, f, xs, env).value.env == rest.env
  {
    test := Apply(h, fuel - 1, f, [xs[0]], env).value;
    rest := FilterLoop(h, fuel - 1, f, xs[1..], test.env).value;
  }

  /** When the function's verdict on each item is known and leaves the scope as it
      was, `filter` keeps exactly the items judged truthy, in order. */
  lemma {:induction false} FilterKeeps(h: Host, fuel: nat, f: Value, xs: seq<Value>, env: Env, keep: seq<bool>)
    requires Judged(h, fuel, f, xs, env, keep)
    ensures FilterLoop(h, fuel, f, xs, env) == Ok(Outcomes(Kept(xs, keep), env))
    decreases |xs|
  {
    if |xs| > 0 {
      var test := JudgedRest(h, fuel, f, xs, env, keep);
      FilterKeeps(h, fuel - 1, f, xs[1..], env, keep[1..]);
      KeptStep(h, fuel, f, xs, env, keep, test);
    } else {
      assert FilterLoop(h, fuel, f, xs, env) == Ok(Outcomes([], env));
    }
  }

  lemma KeptStep(h: Host, fuel: nat, f: Value, xs: seq<Value>, env: Env, keep: seq<bool>, test: Outcome)
    requires |xs| > 0 && fuel > 0 && |keep| == |xs|
    requires Apply(h, fuel - 1, f, [xs[0]], env) == Ok(test) && test.env == env && keep[0] == Truthy(h, test.value)
    requires FilterLoop(h, fuel - 1, f, xs[1..], env) == Ok(Outcomes(Kept(xs[1..], keep[1..]), env))
    ensures FilterLoop(h, fuel, f, xs, env) == Ok(Outcomes(Kept(xs, keep), env))
  {
    FilterStep(h, fuel, f, xs, env, test, Outcomes(Kept(xs[1..], keep[1..]), env));
  }

  /** Conversely, when `filter` of a lambda succeeds, the function was applied to
      every item, and the scope is unchanged. */
  lemma {:induction false} FilterTestsEveryItem(h: Host, fuel: nat, f: Value, xs: seq<Value>, env: Env)
    requires f.Lambda?
    ensures FilterLoop(h, fuel, f, xs, env).Ok? ==>
      FilterLoop(h, fuel, f, xs, env).value.env == env && Tested(h, fuel, f, xs, env)
    decreases |xs|
  {
    if FilterLoop(h, fuel, f, xs, env).Ok? {
      if |xs| > 0 {
        var test, rest := FilterUnfold(h, fuel, f, xs, env);
        LambdaKeepsCallerScope(h, fuel - 1, f, [xs[0]], env);
        FilterTestsEveryItem(h, fuel - 1, f, xs[1..], env);
        TestedStep(h, fuel, f, xs, env, test, rest);
      } else {
        assert fuel > 0;
      }
    }
  }

  lemma TestedStep(h: Host, fuel: nat, f: Value, xs: seq<Value>, env: Env, test: Outcome, rest: Outcomes)
    requires |xs| > 0 && fuel > 0
    requires Apply(h, fuel - 1, f, [xs[0]], env) == Ok(test) && test.env == env
    requires FilterLoop(h, fuel - 1, f, xs[1..], test.env) == Ok(rest)
    requires FilterLoop(h, fuel - 1, f, xs[1..], env).Ok? ==>
      FilterLoop(h, fuel - 1, f, xs[1..], env).value.env == env && Tested(h, fuel - 1, f, xs[1..], env)
    ensures rest.env == env && Tested(h, fuel, f, xs, env)
  {
    TestedCons(h, fuel, f, xs, env);
  }

  /** Each application takes the accumulated value and the next item to the next
      accumulated value, leaving the scope as it was. */
  predicate Folds(h: Host, fuel: nat, f: Value, xs: seq<Value>, env: Env, accs: seq<Value>) {
    |accs| == |xs| + 1 && fuel > |xs| &&
    forall i | 0 <= i < |xs| :: Apply(h, fuel - 1 - i, f, [accs[i], xs[i]], env) == Ok(Outcome(accs[i + 1], env))
  }

  lemma FoldsRest(h: Host, fuel: nat, f: Value, xs: seq<Value>, env: Env, accs: seq<Value>)
    requires |xs| > 0 && Folds(h, fuel, f, xs, env, accs)
    ensures Apply(h, fuel - 1, f, [accs[0], xs[0]], env) == Ok(Outcome(accs[1], env))
    ensures Folds(h, fuel - 1, f, xs[1..], env, accs[1..])
  {
    assert Apply(h, fuel - 1 - 0, f, [accs[0], xs[0]], env) == Ok(Outcome(accs[0 + 1], env));
    forall i | 0 <= i < |xs[1..]|
      ensures Apply(h, fuel - 1 - 1 - i, f, [accs[1..][i], xs[1..][i]], env) == Ok(Outcome(accs[1..][i + 1], env))
    {
      assert xs[1..][i] == xs[i + 1] && accs[1..][i] == accs[i + 1] && accs[1..][i + 1] == accs[i + 2];
    }
  }

  /** One turn of the `reduce` loop. */
  lemma ReduceStep(h: Host, fuel: nat, f: Value, xs: seq<Value>, env: Env, acc: Value, next: Outcome)
    requires fuel > 0 && |xs| > 0
    requires Apply(h, fuel - 1, f, [acc, xs[0]], env) == Ok(next)
    ensures ReduceLoop(h, fuel, f, xs, env, acc) == ReduceLoop(h, fuel - 1, f, xs[1..], next.env, next.value)
  {
  }

  /** `reduce` folds from the left: given the chain of accumulated values each
      application produces, it yields the last of them. */
  lemma {:induction false} ReduceFolds(h: Host, fuel: nat, f: Value, xs: seq<Value>, env: Env, accs: seq<Value>)
    requires Folds(h, fuel, f, xs, env, accs)
    ensures ReduceLoop(h, fuel, f, xs, env, accs[0]) == Ok(Outcome(accs[|xs|], env))
    decreases |xs|
  {
    if |xs| > 0 {
      FoldsRest(h, fuel, f, xs, env, accs);
      ReduceFolds(h, fuel - 1, f, xs[1..], env, accs[1..]);
      ReduceStep(h, fuel, f, xs, env, accs[0], Outcome(accs[1], env));
    } else {
      assert ReduceLoop(h, fuel, f, xs, env, accs[0]) == Ok(Outcome(accs[0], env));
    }
  }

  /** `reduce` over the empty list gives back the initial value without calling the
      function. */
  lemma ReduceEmpty(h: Host, fuel: nat, f: Value, init: Value, env: Env)
    requires fuel >= 2
    ensures ApplyCallback(h, fuel, ReduceList, [f, init, List([])], env) == Ok(Outcome(init, env))
  {
  }

  /** The loop of `range` over integers collects every integer from `low` up to the
      bound, one step of fuel each. */
  lemma {:induction false} RangeLoopInts(h: Host, fuel: nat, lo: int32, hi: int32, acc: seq<Value>)
    requires fuel > 0 && fuel > hi - lo
    ensures RangeLoop(h, fuel, Int(lo), Int(hi), acc) == Ok(List(acc + Ints(lo, hi)))
    decreases hi - lo
  {
    if lo < hi {
      assert Arith(h, Plus, Int(lo), Int(1)) == Ok(Int(lo + 1));
      RangeLoopInts(h, fuel - 1, lo + 1, hi, acc + [Int(lo)]);
      assert acc + [Int(lo)] + Ints(lo + 1, hi) == acc + Ints(lo, hi);
    } else {
      assert acc + Ints(lo, hi) == acc;
    }
  }

  /** `range` of two integers lists the integers from the first up to but not
      including the second, and nothing when the first is not below the second. */
  lemma RangeOfInts(h: Host, fuel: nat, lo: int32, hi: int32)
    ensures lo >= hi ==> ApplyPrimitive(h, fuel, RangeFn, [Int(lo), Int(hi)]) == Ok(List([]))
    ensures lo < hi && fuel > hi - lo ==> ApplyPrimitive(h, fuel, RangeFn, [Int(lo), Int(hi)]) == Ok(List(Ints(lo, hi)))
  {
    if lo < hi && fuel > hi - lo {
      RangeLoopInts(h, fuel, lo, hi, []);
      assert [] + Ints(lo, hi) == Ints(lo, hi);
    }
  }

  /** `range` needs two numbers. */
  lemma RangeErrors(h: Host, fuel: nat, args: seq<Value>)
    ensures |args| < 2 ==> ApplyPrimitive(h, fuel, RangeFn, args) == Fail(Undefined(MissingArgument))
    ensures |args| >= 2 && !IsNumber(args[0]) ==> ApplyPrimitive(h, fuel, RangeFn, args) == Raise(MismatchedTypes, args[0])
    ensures |args| >= 2 && IsNumber(args[0]) && !IsNumber(args[1]) ==>
      ApplyPrimitive(h, fuel, RangeFn, args) == Raise(MismatchedTypes, args[1])
  {
  }

  /** `tail` drops exactly the first item, and `head` gives it. */
  lemma HeadAndTail(h: Host, fuel: nat, xs: seq<Value>)
    ensures |xs| > 0 ==> ApplyPrimitive(h, fuel, TailFn, [List(xs)]) == Ok(List(xs[1..]))
    ensures |xs| > 0 ==> ApplyPrimitive(h, fuel, HeadFn, [List(xs)]) == Ok(xs[0])
    ensures |xs| == 0 ==> ApplyPrimitive(h, fuel, TailFn, [List(xs)]) == Ok(List([]))
    ensures |xs| == 0 ==> ApplyPrimitive(h, fuel, HeadFn, [List(xs)]) == Fail(Undefined(EmptyListAccess))
  {
  }

  /** Pushing items one at a time onto a list appends them in order. */
  lemma {:induction false} PushAllAppends(items: seq<Value>, xs: seq<Value>)
    ensures PushAll(List(items), xs) == Ok(List(items + xs))
    decreases |xs|
  {
    if |xs| > 0 {
      PushAllAppends(items + [xs[0]], xs[1..]);
      AppendHeadTail(items, xs);
    } else {
      assert items + xs == items;
    }
  }

  /** `push` appends its further arguments to the list it is given; something that
      is not a list can only be pushed nothing. */
  lemma PushBuiltin(h: Host, fuel: nat, v: Value, xs: seq<Value>)
    ensures v.List? ==> ApplyPrimitive(h, fuel, PushFn, [v] + xs) == Ok(List(v.items + xs))
    ensures !v.List? && |xs| > 0 ==> ApplyPrimitive(h, fuel, PushFn, [v] + xs) == Raise(MismatchedTypes, v)
    ensures |xs| == 0 ==> ApplyPrimitive(h, fuel, PushFn, [v] + xs) == Ok(v)
  {
    assert ([v] + xs)[0] == v && ([v] + xs)[1..] == xs;
    if v.List? {
      PushAllAppends(v.items, xs);
    }
  }

  /** The comparison builtins answer 1 or 0 as integer comparison does. */
  lemma ComparisonsOnInts(h: Host, fuel: nat, x: int32, y: int32)
    ensures ApplyPrimitive(h, fuel, Less, [Int(x), Int(y)]) == Ok(Int(if x < y then 1 else 0))
    ensures ApplyPrimitive(h, fuel, Greater, [Int(x), Int(y)]) == Ok(Int(if x > y then 1 else 0))
    ensures ApplyPrimitive(h, fuel, LessEq, [Int(x), Int(y)]) == Ok(Int(if x <= y then 1 else 0))
    ensures ApplyPrimitive(h, fuel, GreaterEq, [Int(x), Int(y)]) == Ok(Int(if x >= y then 1 else 0))
    ensures ApplyPrimitive(h, fuel, EqFn, [Int(x), Int(y)]) == Ok(Int(if x == y then 1 else 0))
    ensures ApplyPrimitive(h, fuel, NeqFn, [Int(x), Int(y)]) == Ok(Int(if x != y then 1 else 0))
  {
  }

  /** An ordinary builtin evaluates its arguments first, then computes its value
      from theirs; the scope is the one the arguments left. */
  lemma PrimitiveCall(h: Host, fuel: nat, name: string, p: Primitive, args: seq<Value>, env: Env)
    requires fuel > 0
    ensures EvalArgs(h, fuel - 1, args, env).Fail? ==>
      Apply(h, fuel, Builtin(name, PrimOp(p)), args, env) == Fail(EvalArgs(h, fuel - 1, args, env).error)
    ensures EvalArgs(h, fuel - 1, args, env).Ok? ==>
      var a := EvalArgs(h, fuel - 1, args, env).value;
      var x := ApplyPrimitive(h, fuel - 1, p, a.values);
      Apply(h, fuel, Builtin(name, PrimOp(p)), args, env) == if x.Ok? then Ok(Outcome(x.value, a.env)) else Fail(x.error)
  {
  }

  /** An I/O builtin evaluates its arguments and then leaves the model. */
  lemma IoCall(h: Host, fuel: nat, name: string, io: IoBuiltin, args: seq<Value>, env: Env)
    requires fuel > 0 && EvalArgs(h, fuel - 1, args, env).Ok?
    ensures Apply(h, fuel, Builtin(name, IoOp(io)), args, env) == Fail(External(io))
  {
  }

  /** `list` gives its evaluated arguments as a list; `type` gives the type name of
      its one argument, and `int` and `float` cast it. */
  lemma ValueBuiltins(h: Host, fuel: nat, v: Value, args: seq<Value>)
    ensures ApplyPrimitive(h, fuel, ListFn, args) == Ok(List(args))
    ensures ApplyPrimitive(h, fuel, TypeFn, [v]) == Ok(Str(TypeName(v)))
    ensures ApplyPrimitive(h, fuel, IntFn, [v]) == CastToInt(h, v)
    ensures ApplyPrimitive(h, fuel, FloatFn, [v]) == CastToFloat(h, v)
    ensures |args| != 1 ==>
      ApplyPrimitive(h, fuel, TypeFn, args) == Raise(if |args| > 1 then TooManyArgs else TooFewArgs, Builtin("type", PrimOp(TypeFn)))
    ensures |args| != 1 ==>
      ApplyPrimitive(h, fuel, IntFn, args) == Raise(if |args| > 1 then TooManyArgs else TooFewArgs, Builtin("int", PrimOp(IntFn)))
  {
  }

  /** `debug` and `display` give the two renderings of their one argument as a
      string. */
  lemma RenderBuiltins(h: Host, fuel: nat, v: Value)
    ensures ApplyPrimitive(h, fuel, DebugFn, [v]) == Ok(Str(Debug(h, v)))
    ensures ApplyPrimitive(h, fuel, DisplayFn, [v]) == Ok(Str(Display(h, v)))
    ensures ApplyPrimitive(h, fuel, DebugFn, []) == Raise(TooFewArgs, Builtin("debug", PrimOp(DebugFn)))
    ensures ApplyPrimitive(h, fuel, DisplayFn, [v, v]) == Raise(TooManyArgs, Builtin("display", PrimOp(DisplayFn)))
  {
  }

  /** `parse` reads a string's forms into a list and rejects anything else. */
  lemma ParseBuiltin(h: Host, fuel: nat, v: Value)
    ensures !v.Str? ==> ApplyPrimitive(h, fuel, ParseFn, [v]) == Raise(InvalidArgument, v)
    ensures v.Str? && ParseProgram(h, v.s).Ok? ==>
      ApplyPrimitive(h, fuel, ParseFn, [v]) == Ok(List(ParseProgram(h, v.s).value))
  {
  }

  /** What `debug` writes, `parse` reads back as a one-form program. */
  lemma ParseOfDebug(h: Host, fuel: nat, v: Value)
    requires ReaderLaws.Printable(v)
    ensures ApplyPrimitive(h, fuel, DebugFn, [v]).Ok?
    ensures ApplyPrimitive(h, fuel, ParseFn, [ApplyPrimitive(h, fuel, DebugFn, [v]).value]) == Ok(List([v]))
  {
    ReaderLaws.ReadBackDebug(h, v);
  }

  /** `pop` of a list gives its last item, so it undoes `push` of one item. */
  lemma PopOfPush(h: Host, fuel: nat, l: Value, x: Value)
    requires l.List?
    ensures ApplyPrimitive(h, fuel, PushFn, [l, x]) == Ok(List(l.items + [x]))
    ensures ApplyPrimitive(h, fuel, PopFn, [ApplyPrimitive(h, fuel, PushFn, [l, x]).value]) == Ok(x)
  {
    PushBuiltin(h, fuel, l, [x]);
    assert [l] + [x] == [l, x];
    PopAfterPush(l, x);
  }

  /** `+` and `*` need at least two arguments and fold from the left. */
  lemma FoldingBuiltins(h: Host, fuel: nat, a: Value, b: Value, c: Value)
    ensures ApplyPrimitive(h, fuel, Sum, [a]) == Raise(TooFewArgs, Builtin("+", PrimOp(Sum)))
    ensures ApplyPrimitive(h, fuel, Product, []) == Raise(TooFewArgs, Builtin("*", PrimOp(Product)))
    ensures ApplyPrimitive(h, fuel, Sum, [a, b]) == Arith(h, Plus, a, b)
    ensures ApplyPrimitive(h, fuel, Product, [a, b]) == Arith(h, Times, a, b)
  {
    assert [a, b][1..] == [b];
    FoldOne(h, Plus, a, b);
    FoldOne(h, Times, a, b);
  }

  /** A third argument of `+` is added to the sum of the first two. */
  lemma SumOfThree(h: Host, fuel: nat, a: Value, b: Value, c: Value)
    ensures Arith(h, Plus, a, b).Ok? ==>
      ApplyPrimitive(h, fuel, Sum, [a, b, c]) == Arith(h, Plus, Arith(h, Plus, a, b).value, c)
    ensures Arith(h, Plus, a, b).Fail? ==>
      ApplyPrimitive(h, fuel, Sum, [a, b, c]) == Arith(h, Plus, a, b)
  {
    assert [a, b, c][1..] == [b, c];
    if Arith(h, Plus, a, b).Ok? {
      assert [b, c][1..] == [c];
      FoldOne(h, Plus, Arith(h, Plus, a, b).value, c);
    }
  }

  /** `-`, `/` and `%` take exactly two arguments. */
  lemma BinaryBuiltins(h: Host, fuel: nat, a: Value, b: Value, c: Value)
    ensures ApplyPrimitive(h, fuel, Subtract, [a, b]) == Arith(h, Minus, a, b)
    ensures ApplyPrimitive(h, fuel, Divide, [a, b]) == Arith(h, Over, a, b)
    ensures ApplyPrimitive(h, fuel, Remainder, [a, b]) == Arith(h, Modulo, a, b)
    ensures ApplyPrimitive(h, fuel, Subtract, [a]) == Raise(TooFewArgs, Builtin("-", PrimOp(Subtract)))
    ensures ApplyPrimitive(h, fuel, Divide, [a, b, c]) == Raise(TooManyArgs, Builtin("/", PrimOp(Divide)))
    ensures ApplyPrimitive(h, fuel, Remainder, [a, b, c]) == Raise(TooManyArgs, Builtin("%", PrimOp(Remainder)))
  {
  }

  lemma FoldOne(h: Host, op: ArithOp, a: Value, b: Value)
    ensures FoldArith(h, op, a, [b]) == Arith(h, op, a, b)
  {
    assert [b][1..] == [];
  }

  // ---------------------------------------------------------------------------
  // Running a program

  /** Running one run of forms and then another is running them together: the
      second starts in the scope the first left, and an error in the first stops
      everything. */
  lemma {:induction false} RunFormsSplit(h: Host, fuel: nat, a: seq<Value>, b: seq<Value>, env: Env)
    requires |a| > 0 && |b| > 0
    ensures var r := RunForms(h, fuel, a, env);
      RunForms(h, fuel, a + b, env) == if r.Ok? then RunForms(h, fuel, b, r.value.env) else Fail(r.error)
    decreases |a|
  {
    assert (a + b)[0] == a[0];
    if |a| == 1 {
      assert (a + b)[1..] == b;
    } else {
      assert (a + b)[1..] == a[1..] + b;
      var first := Eval(h, fuel, a[0], env);
      if first.Ok? {
        RunFormsSplit(h, fuel, a[1..], b, first.value.env);
      }
    }
  }

  /** A program with no forms has no value; a program of one form has the value of
      that form; a longer one evaluates every form but the last in order, each in
      the scope the one before left, and then has the value of the last form in the
      scope they leave. */
  lemma RunProgram(h: Host, fuel: nat, code: string, env: Env)
    ensures ParseProgram(h, code) == Ok([]) ==> Run(h, fuel, code, env) == Fail(Undefined(EmptyListAccess))
    ensures ParseProgram(h, code).Ok? && |ParseProgram(h, code).value| == 1 ==>
      Run(h, fuel, code, env) == Eval(h, fuel, ParseProgram(h, code).value[0], env)
    ensures ParseProgram(h, code).Ok? && |ParseProgram(h, code).value| > 1 ==>
      var forms := ParseProgram(h, code).value;
      var n := |forms|;
      var r := RunForms(h, fuel, forms[..n - 1], env);
      Run(h, fuel, code, env) == if r.Ok? then Eval(h, fuel, forms[n - 1], r.value.env) else Fail(r.error)
  {
    var p := ParseProgram(h, code);
    if p.Ok? && |p.value| > 1 {
      var forms := p.value;
      var n := |forms|;
      assert forms == forms[..n - 1] + [forms[n - 1]];
      RunFormsSplit(h, fuel, forms[..n - 1], [forms[n - 1]], env);
    }
  }
}
