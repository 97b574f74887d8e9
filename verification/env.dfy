/** The scope an expression is evaluated in: the local definitions and the
    enclosing scope. Lookup consults a fixed table of reserved names first, so the
    builtins and the `endl` constant cannot be shadowed by a definition. */
module Environments {
  import opened Wrappers
  import opened Values

  datatype Env = Env(defs: map<string, Value>, parent: Option<Env>)

  /** A scope with no definitions and no enclosing scope. */
  const EMPTY := Env(map[], None)

  /** The name a builtin carries when the interpreter builds it for an error
      report, which is also the reserved name it is looked up under. */
  function OpName(op: Op): string {
    match op
    case SpecialOp(f) => (
      match f
      case DoBlock => "do"
      case IfThenElse => "if"
      case ScopeForm => "scope"
      case QuoteForm => "quote"
      case Defun => "defun"
      case Define => "define"
      case LambdaForm => "lambda")
    case CallbackOp(c) => (
      match c
      case EvalFn => "eval"
      case MapList => "map"
      case FilterList => "filter"
      case ReduceList => "reduce")
    case PrimOp(p) => (
      match p
      case TypeFn => "type"
      case ParseFn => "parse"
      case EqFn => "="
      case NeqFn => "!="
      case Greater => ">"
      case Less => "<"
      case GreaterEq => ">="
      case LessEq => "<="
      case Sum => "+"
      case Subtract => "-"
      case Product => "*"
      case Divide => "/"
      case Remainder => "%"
      case ListFn => "list"
      case PushFn => "push"
      case PopFn => "pop"
      case HeadFn => "head"
      case TailFn => "tail"
      case RangeFn => "range"
      case DebugFn => "debug"
      case DisplayFn => "display"
      case IntFn => INT_TYPE
      case FloatFn => FLOAT_TYPE)
    case IoOp(io) => (
      match io
      case Exit => "exit"
      case Print => "print"
      case Input => "input"
      case Include => "include"
      case ReadFile => "read-file"
      case WriteFile => "write-file")
  }

  /** The builtin value for `op` under its own name. */
  function Named(op: Op): (r: Value)
    ensures r.Builtin? && r.op == op && r.name == OpName(op)
  {
    Builtin(OpName(op), op)
  }

  /** `Environment::get`'s table of reserved names, tested in the source's order:
      the builtins (`first` and `last` are further names for the native functions of
      `head` and `pop`, and `quit` for that of `exit`) and the constant `endl`. */
  function Reserved(name: string): Option<Value> {
    if name == "eval" then Some(Builtin(name, CallbackOp(EvalFn)))
    else if name == "type" then Some(Builtin(name, PrimOp(TypeFn)))
    else if name == "parse" then Some(Builtin(name, PrimOp(ParseFn)))
    else if name == "do" then Some(Builtin(name, SpecialOp(DoBlock)))
    else if name == "if" then Some(Builtin(name, SpecialOp(IfThenElse)))
    else if name == "scope" then Some(Builtin(name, SpecialOp(ScopeForm)))
    else if name == "quote" then Some(Builtin(name, SpecialOp(QuoteForm)))
    else if name == "defun" then Some(Builtin(name, SpecialOp(Defun)))
    else if name == "define" then Some(Builtin(name, SpecialOp(Define)))
    else if name == "lambda" then Some(Builtin(name, SpecialOp(LambdaForm)))
    else if name == "=" then Some(Builtin(name, PrimOp(EqFn)))
    else if name == "!=" then Some(Builtin(name, PrimOp(NeqFn)))
    else if name == ">" then Some(Builtin(name, PrimOp(Greater)))
    else if name == "<" then Some(Builtin(name, PrimOp(Less)))
    else if name == ">=" then Some(Builtin(name, PrimOp(GreaterEq)))
    else if name == "<=" then Some(Builtin(name, PrimOp(LessEq)))
    else if name == "+" then Some(Builtin(name, PrimOp(Sum)))
    else if name == "-" then Some(Builtin(name, PrimOp(Subtract)))
    else if name == "*" then Some(Builtin(name, PrimOp(Product)))
    else if name == "/" then Some(Builtin(name, PrimOp(Divide)))
    else if name == "%" then Some(Builtin(name, PrimOp(Remainder)))
    else if name == "list" then Some(Builtin(name, PrimOp(ListFn)))
    else if name == "push" then Some(Builtin(name, PrimOp(PushFn)))
    else if name == "pop" then Some(Builtin(name, PrimOp(PopFn)))
    else if name == "head" then Some(Builtin(name, PrimOp(HeadFn)))
    else if name == "tail" then Some(Builtin(name, PrimOp(TailFn)))
    else if name == "first" then Some(Builtin(name, PrimOp(HeadFn)))
    else if name == "last" then Some(Builtin(name, PrimOp(PopFn)))
    else if name == "range" then Some(Builtin(name, PrimOp(RangeFn)))
    else if name == "map" then Some(Builtin(name, CallbackOp(MapList)))
    else if name == "filter" then Some(Builtin(name, CallbackOp(FilterList)))
    else if name == "reduce" then Some(Builtin(name, CallbackOp(ReduceList)))
    else if name == "exit" then Some(Builtin(name, IoOp(Exit)))
    else if name == "quit" then Some(Builtin(name, IoOp(Exit)))
    else if name == "print" then Some(Builtin(name, IoOp(Print)))
    else if name == "input" then Some(Builtin(name, IoOp(Input)))
    else if name == "include" then Some(Builtin(name, IoOp(Include)))
    else if name == "read-file" then Some(Builtin(name, IoOp(ReadFile)))
    else if name == "write-file" then Some(Builtin(name, IoOp(WriteFile)))
    else if name == "debug" then Some(Builtin(name, PrimOp(DebugFn)))
    else if name == "display" then Some(Builtin(name, PrimOp(DisplayFn)))
    else if name == INT_TYPE then Some(Builtin(name, PrimOp(IntFn)))
    else if name == FLOAT_TYPE then Some(Builtin(name, PrimOp(FloatFn)))
    else if name == "endl" then Some(Str("\n"))
    else None
  }

  /** The names no definition can shadow. */
  predicate IsReserved(name: string) {
    Reserved(name).Some?
  }

  /** The local definitions and then those of each enclosing scope, outward. */
  function Lookup(env: Env, name: string): (r: Res<Value>)
    ensures r.Fail? ==> r == Raise(AtomNotDefined, Atom(name))
    decreases env
  {
    if name in env.defs then Ok(env.defs[name])
    else match env.parent
      case None => Raise(AtomNotDefined, Atom(name))
      case Some(p) => Lookup(p, name)
  }

  /** `Environment::get`. The source tests an enclosing scope's definitions before
      recursing into it, where they are tested again; the outcome is the same as
      testing each scope once. */
  function Get(env: Env, name: string): (r: Res<Value>)
    ensures r.Fail? ==> !IsReserved(name) && r == Raise(AtomNotDefined, Atom(name))
  {
    match Reserved(name)
    case Some(v) => Ok(v)
    case None => Lookup(env, name)
  }

  /** `Environment::set`: define or redefine a local name. */
  function Set(env: Env, name: string, v: Value): (r: Env)
    ensures r.parent == env.parent
    ensures r.defs.Keys == env.defs.Keys + {name}
    ensures name in r.defs && r.defs[name] == v
    ensures forall n | n in env.defs && n != name :: n in r.defs && r.defs[n] == env.defs[n]
  {
    env.(defs := env.defs[name := v])
  }

  /** `Environment::combine`: add the other scope's definitions, keeping every name
      this scope already defines. */
  function Combine(env: Env, other: Env): (r: Env)
    ensures r.parent == env.parent
    ensures r.defs.Keys == env.defs.Keys + other.defs.Keys
    ensures forall n | n in env.defs :: r.defs[n] == env.defs[n]
    ensures forall n | n in other.defs && n !in env.defs :: r.defs[n] == other.defs[n]
  {
    env.(defs := other.defs + env.defs)
  }

  /** The scope a lambda's body runs in: the captured definitions, enclosed by the
      scope of the caller. */
  function Enclosed(captured: map<string, Value>, caller: Env): (r: Env)
    ensures r.defs == captured && r.parent == Some(caller)
  {
    Env(captured, Some(caller))
  }
}
