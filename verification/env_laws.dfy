/** What lookup, definition and combination of scopes guarantee. */
module EnvironmentLaws {
  import opened Wrappers
  import opened Values
  import opened Environments

  /** The definitions of a scope and of every enclosing one, innermost first. */
  function Scopes(env: Env): (r: seq<map<string, Value>>)
    ensures |r| > 0 && r[0] == env.defs
    decreases env
  {
    match env.parent
    case None => [env.defs]
    case Some(p) => [env.defs] + Scopes(p)
  }

  /** Scope `i` of the chain is the innermost one defining `name`. */
  predicate InnermostAt(env: Env, name: string, i: nat) {
    var ss := Scopes(env);
    i < |ss| && name in ss[i] && forall j | 0 <= j < i :: name !in ss[j]
  }

  /** The chain of an enclosed scope is its own definitions followed by the chain
      of the enclosing scope. */
  lemma ScopesOfEnclosed(env: Env, p: Env)
    requires env.parent == Some(p)
    ensures |Scopes(env)| == |Scopes(p)| + 1
    ensures forall i | 0 <= i < |Scopes(p)| :: Scopes(env)[i + 1] == Scopes(p)[i]
  {
    assert Scopes(env) == [env.defs] + Scopes(p);
  }

  /** Lookup succeeds exactly when some scope of the chain defines the name. */
  lemma {:induction false} LookupDefined(env: Env, name: string)
    ensures Lookup(env, name).Ok? <==> exists i | 0 <= i < |Scopes(env)| :: name in Scopes(env)[i]
    decreases env
  {
    if name in env.defs {
      assert name in Scopes(env)[0];
    } else if env.parent.Some? {
      var p := env.parent.value;
      LookupDefined(p, name);
      ScopesOfEnclosed(env, p);
      assert Lookup(env, name) == Lookup(p, name);
      if Lookup(p, name).Ok? {
        var i :| 0 <= i < |Scopes(p)| && name in Scopes(p)[i];
        assert name in Scopes(env)[i + 1];
      }
      if exists i | 0 <= i < |Scopes(env)| :: name in Scopes(env)[i] {
        var i :| 0 <= i < |Scopes(env)| && name in Scopes(env)[i];
        assert i != 0 && Scopes(env)[i - 1 + 1] == Scopes(p)[i - 1];
      }
    } else {
      assert Scopes(env) == [env.defs];
    }
  }

  /** Lookup gives the definition of the innermost scope of the chain that defines
      the name. */
  lemma {:induction false} LookupInnermost(env: Env, name: string, i: nat)
    requires InnermostAt(env, name, i)
    ensures Lookup(env, name) == Ok(Scopes(env)[i][name])
    decreases env
  {
    if i > 0 {
      assert name !in Scopes(env)[0];
      var p := env.parent.value;
      ScopesOfEnclosed(env, p);
      assert InnermostAt(p, name, i - 1) by {
        forall j | 0 <= j < i - 1 ensures name !in Scopes(p)[j] {
          assert Scopes(env)[j + 1] == Scopes(p)[j];
        }
      }
      LookupInnermost(p, name, i - 1);
    }
  }

  /** A reserved name resolves to its builtin in every scope, whatever the user has
      defined under that name. */
  lemma ReservedWins(env: Env, name: string, v: Value)
    requires IsReserved(name)
    ensures Get(env, name).Ok? && Get(env, name) == Get(EMPTY, name)
    ensures Get(Set(env, name, v), name) == Get(env, name)
  {
  }

  /** A name that is not reserved reads back what was last defined under it. */
  lemma SetThenGet(env: Env, name: string, v: Value)
    requires !IsReserved(name)
    ensures Get(Set(env, name, v), name) == Ok(v)
  {
  }

  /** Defining one name changes the lookup of no other name. */
  lemma SetLeavesOthers(env: Env, name: string, other: string, v: Value)
    requires other != name
    ensures Get(Set(env, name, v), other) == Get(env, other)
  {
  }

  /** After combining, a name this scope defined still reads as before, and a name
      only the other scope defined reads as the other scope has it. */
  lemma CombineKeepsOwn(env: Env, other: Env, name: string)
    ensures name in env.defs ==> Get(Combine(env, other), name) == Get(env, name)
    ensures name !in env.defs && name in other.defs && !IsReserved(name) ==>
      Get(Combine(env, other), name) == Ok(other.defs[name])
  {
  }

  /** `first` is the native function of `head` under another name: equal as
      values, though displayed differently. */
  lemma FirstIsHead(h: Host, env: Env)
    ensures Get(env, "first") == Ok(Builtin("first", PrimOp(HeadFn)))
    ensures Get(env, "head") == Ok(Builtin("head", PrimOp(HeadFn)))
    ensures Eq(h, Get(env, "first").value, Get(env, "head").value)
  {
  }

  /** `last` is the native function of `pop` under another name. */
  lemma LastIsPop(h: Host, env: Env)
    ensures Get(env, "last") == Ok(Builtin("last", PrimOp(PopFn)))
    ensures Get(env, "pop") == Ok(Builtin("pop", PrimOp(PopFn)))
    ensures Eq(h, Get(env, "last").value, Get(env, "pop").value)
  {
  }

  /** A builtin resolves under its own name once that name is known to be reserved
      for it. */
  lemma ResolvesAs(env: Env, op: Op, n: string)
    requires OpName(op) == n && Reserved(n) == Some(Builtin(n, op))
    ensures Get(env, OpName(op)) == Ok(Named(op))
  {
  }

  /** The meta builtins `eval`, `type` and `parse` are reserved under their own
      names. */
  lemma MetaResolve(env: Env, op: Op)
    requires op == CallbackOp(EvalFn) || op == PrimOp(TypeFn) || op == PrimOp(ParseFn)
    ensures Get(env, OpName(op)) == Ok(Named(op))
  {
  }

  /** Every special form is reserved under its own name. */
  lemma SpecialFormsResolve(env: Env, f: SpecialForm)
    ensures Get(env, OpName(SpecialOp(f))) == Ok(Named(SpecialOp(f)))
  {
  }

  /** Every comparison builtin is reserved under its own name. */
  lemma ComparisonsResolve(env: Env, p: Primitive)
    requires p.EqFn? || p.NeqFn? || p.Greater? || p.Less? || p.GreaterEq? || p.LessEq?
    ensures Get(env, OpName(PrimOp(p))) == Ok(Named(PrimOp(p)))
  {
  }

  /** Every arithmetic builtin is reserved under its own name. */
  lemma ArithmeticResolve(env: Env, p: Primitive)
    requires p.Sum? || p.Subtract? || p.Product? || p.Divide? || p.Remainder?
    ensures Get(env, OpName(PrimOp(p))) == Ok(Named(PrimOp(p)))
  {
  }

  /** Every list builtin is reserved under its own name. */
  lemma ListFunctionsResolve(env: Env, p: Primitive)
    requires p.ListFn? || p.PushFn? || p.PopFn? || p.HeadFn? || p.TailFn? || p.RangeFn?
    ensures Get(env, OpName(PrimOp(p))) == Ok(Named(PrimOp(p)))
  {
  }

  /** `map`, `filter` and `reduce` are reserved under their own names. */
  lemma FunctionalResolve(env: Env, c: Callback)
    requires !c.EvalFn?
    ensures Get(env, OpName(CallbackOp(c))) == Ok(Named(CallbackOp(c)))
  {
  }

  /** Every I/O builtin is reserved under its own name. */
  lemma IoBuiltinsResolve(env: Env, io: IoBuiltin)
    ensures Get(env, OpName(IoOp(io))) == Ok(Named(IoOp(io)))
  {
    match io
    case Exit => ResolvesAs(env, IoOp(io), "exit");
    case Print => ResolvesAs(env, IoOp(io), "print");
    case Input => ResolvesAs(env, IoOp(io), "input");
    case Include => ResolvesAs(env, IoOp(io), "include");
    case ReadFile => ResolvesAs(env, IoOp(io), "read-file");
    case WriteFile => ResolvesAs(env, IoOp(io), "write-file");
  }

  /** `debug` and `display` are reserved under their own names. */
  lemma FormattingResolve(env: Env, p: Primitive)
    requires p.DebugFn? || p.DisplayFn?
    ensures Get(env, OpName(PrimOp(p))) == Ok(Named(PrimOp(p)))
  {
    if p.DebugFn? {
      ResolvesAs(env, PrimOp(p), "debug");
    } else {
      ResolvesAs(env, PrimOp(p), "display");
    }
  }

  /** The casts are reserved under the type names they cast to. */
  lemma CastsResolve(env: Env, p: Primitive)
    requires p.IntFn? || p.FloatFn?
    ensures Get(env, OpName(PrimOp(p))) == Ok(Named(PrimOp(p)))
  {
    if p.IntFn? {
      ResolvesAs(env, PrimOp(p), INT_TYPE);
    } else {
      ResolvesAs(env, PrimOp(p), FLOAT_TYPE);
    }
  }
}
