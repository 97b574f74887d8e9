/** Laws of the value algebra: what equality, truthiness, ordering and the
    arithmetic operators promise, stated against independent definitions. */
module ValueLaws {
  import opened Wrappers
  import opened Int32
  import opened Values

  // ---------------------------------------------------------------------------
  // Equality

  /** Values built only from the variants whose equality is the host's structural
      one: no floats (whose equality is the host's), no lambdas (whose captured
      bindings are ignored) and no builtins (whose display names are ignored). */
  predicate IsData(v: Value) {
    match v
    case Quote(x) => IsData(x)
    case List(xs) => forall k | 0 <= k < |xs| :: IsData(xs[k])
    case Atom(_) => true
    case Int(_) => true
    case Str(_) => true
    case Unit => true
    case _ => false
  }

  /** Values with no float anywhere in them (lambdas and builtins allowed). */
  predicate FloatFree(v: Value) {
    match v
    case Float(_) => false
    case Quote(x) => FloatFree(x)
    case List(xs) => forall k | 0 <= k < |xs| :: FloatFree(xs[k])
    case Lambda(ps, body, _) => (forall k | 0 <= k < |ps| :: FloatFree(ps[k])) && FloatFree(body)
    case _ => true
  }

  /** On data, the interpreter's equality is exactly structural equality. */
  lemma {:induction false} EqIsStructural(h: Host, a: Value, b: Value)
    requires IsData(a) && IsData(b)
    ensures Eq(h, a, b) <==> a == b
    decreases a
  {
    match a
    case Quote(x) =>
      if b.Quote? {
        EqIsStructural(h, x, b.inner);
      }
    case List(xs) =>
      if b.List? {
        EqSeqIsStructural(h, xs, b.items);
      }
    case _ =>
  }

  lemma {:induction false} EqSeqIsStructural(h: Host, xs: seq<Value>, ys: seq<Value>)
    requires forall k | 0 <= k < |xs| :: IsData(xs[k])
    requires forall k | 0 <= k < |ys| :: IsData(ys[k])
    ensures EqSeq(h, xs, ys) <==> xs == ys
    decreases xs
  {
    if |xs| > 0 && |xs| == |ys| {
      EqIsStructural(h, xs[0], ys[0]);
      EqSeqIsStructural(h, xs[1..], ys[1..]);
      if xs[0] == ys[0] && xs[1..] == ys[1..] {
        assert xs == [xs[0]] + xs[1..] && ys == [ys[0]] + ys[1..];
      }
    }
  }

  /** Every float-free value equals itself, lambdas and builtins included. */
  lemma {:induction false} EqReflexive(h: Host, v: Value)
    requires FloatFree(v)
    ensures Eq(h, v, v)
    decreases v
  {
    match v
    case Quote(x) => EqReflexive(h, x);
    case List(xs) => EqSeqReflexive(h, xs);
    case Lambda(ps, body, _) =>
      EqSeqReflexive(h, ps);
      EqReflexive(h, body);
    case _ =>
  }

  lemma {:induction false} EqSeqReflexive(h: Host, xs: seq<Value>)
    requires forall k | 0 <= k < |xs| :: FloatFree(xs[k])
    ensures EqSeq(h, xs, xs)
    decreases xs
  {
    if |xs| > 0 {
      EqReflexive(h, xs[0]);
      EqSeqReflexive(h, xs[1..]);
    }
  }

  /** Lambda equality ignores the captured bindings: two lambdas with the same
      (float-free) parameters and body are equal whatever they captured. */
  lemma LambdaEqIgnoresCapture(h: Host, ps: seq<Value>, body: Value, c1: map<string, Value>, c2: map<string, Value>)
    requires forall k | 0 <= k < |ps| :: FloatFree(ps[k])
    requires FloatFree(body)
    ensures Eq(h, Lambda(ps, body, c1), Lambda(ps, body, c2))
  {
    EqSeqReflexive(h, ps);
    EqReflexive(h, body);
  }

  /** Builtin equality compares the native function only, not the display name. */
  lemma BuiltinEqIsSameFunction(h: Host, n1: string, n2: string, p: Op, q: Op)
    ensures Eq(h, Builtin(n1, p), Builtin(n2, q)) <==> p == q
  {
  }

  /** Quotes compare the values they wrap. */
  lemma QuoteEqComparesInner(h: Host, x: Value, y: Value)
    ensures Eq(h, Quote(x), Quote(y)) <==> Eq(h, x, y)
  {
  }

  // ---------------------------------------------------------------------------
  // Truthiness

  /** Only zero is false: an integer is true when nonzero, a float when the host
      does not find it equal to the converted 0, and every non-number is true
      (the unit value and the empty list included). */
  lemma TruthyCharacterised(h: Host, v: Value)
    ensures v.Int? ==> (Truthy(h, v) <==> v.i != 0)
    ensures v.Float? ==> (Truthy(h, v) <==> !h.eq(v.f, h.intToDouble(0)))
    ensures !IsNumber(v) ==> Truthy(h, v)
  {
  }

  // ---------------------------------------------------------------------------
  // Ordering

  /** The errors of `<`: a non-numeric right side is InvalidBinOp whatever the left
      side is; a numeric right side with a non-numeric left side is InvalidOrder;
      two numbers never fail. */
  lemma LtErrors(h: Host, a: Value, b: Value)
    ensures !IsNumber(b) ==> Lt(h, a, b) == Raise(InvalidBinOp, a)
    ensures IsNumber(b) && !IsNumber(a) ==> Lt(h, a, b) == Raise(InvalidOrder, a)
    ensures IsNumber(a) && IsNumber(b) ==> Lt(h, a, b).Ok?
  {
  }

  /** On two integers the four comparisons agree with integer comparison. */
  lemma OrderOnInts(h: Host, x: int32, y: int32)
    ensures Lt(h, Int(x), Int(y)) == Ok(x < y)
    ensures Le(h, Int(x), Int(y)) == Ok(x <= y)
    ensures Gt(h, Int(x), Int(y)) == Ok(x > y)
    ensures Ge(h, Int(x), Int(y)) == Ok(x >= y)
  {
  }

  /** `>=` is the negation of `<`, and `>` the negation of "equal or `<`", errors
      included: the derived comparisons fail exactly when the `<` they consult does. */
  lemma DerivedComparisons(h: Host, a: Value, b: Value)
    ensures Ge(h, a, b) == (if Lt(h, a, b).Ok? then Ok(!Lt(h, a, b).value) else Lt(h, a, b))
    ensures Gt(h, a, b) == (if Eq(h, a, b) then Ok(false)
                            else if Lt(h, a, b).Ok? then Ok(!Lt(h, a, b).value) else Lt(h, a, b))
  {
  }

  /** Because `<=` tries equality first, any float-free value is `<=` itself and not
      `>` itself, even one `<` cannot order (a string, a list). */
  lemma LeReflexive(h: Host, v: Value)
    requires FloatFree(v)
    ensures Le(h, v, v) == Ok(true)
    ensures Gt(h, v, v) == Ok(false)
  {
    EqReflexive(h, v);
  }

  // ---------------------------------------------------------------------------
  // Arithmetic

  /** Integer `+ - *` give the mathematical result when it fits an `int`, and are
      undefined otherwise. */
  lemma IntRingOps(h: Host, x: int32, y: int32)
    ensures InRange(x + y) ==> Arith(h, Plus, Int(x), Int(y)) == Ok(Int(x + y))
    ensures InRange(x - y) ==> Arith(h, Minus, Int(x), Int(y)) == Ok(Int(x - y))
    ensures InRange(x * y) ==> Arith(h, Times, Int(x), Int(y)) == Ok(Int(x * y))
    ensures !InRange(x + y) ==> Arith(h, Plus, Int(x), Int(y)) == Fail(Undefined(IntOverflow))
    ensures !InRange(x - y) ==> Arith(h, Minus, Int(x), Int(y)) == Fail(Undefined(IntOverflow))
    ensures !InRange(x * y) ==> Arith(h, Times, Int(x), Int(y)) == Fail(Undefined(IntOverflow))
  {
  }

  /** Integer `/` and `%`. By a nonzero divisor, except for `INT_MIN / -1`, they
      return a quotient `q` and remainder `m` with `q * y + m == x`, `|m| < |y|`, and
      `m` zero or of the dividend's sign (division truncates toward zero). Division
      by zero is undefined, and so is `INT_MIN` divided by `-1`, whose quotient does
      not fit an `int` (C++ leaves the remainder undefined there too). */
  lemma IntDivisionOps(h: Host, x: int32, y: int32)
    ensures y == 0 ==> Arith(h, Over, Int(x), Int(y)) == Fail(Undefined(ZeroDivisor))
    ensures y == 0 ==> Arith(h, Modulo, Int(x), Int(y)) == Fail(Undefined(ZeroDivisor))
    ensures x == INT_MIN && y == -1 ==>
      && Arith(h, Over, Int(x), Int(y)) == Fail(Undefined(IntOverflow))
      && Arith(h, Modulo, Int(x), Int(y)) == Fail(Undefined(IntOverflow))
    ensures y != 0 && !(x == INT_MIN && y == -1) ==>
      && Arith(h, Over, Int(x), Int(y)).Ok? && Arith(h, Modulo, Int(x), Int(y)).Ok?
      && var q := Arith(h, Over, Int(x), Int(y)).value.i;
         var m := Arith(h, Modulo, Int(x), Int(y)).value.i;
         q * y + m == x && Abs(m) < Abs(y) && (m == 0 || (m < 0 <==> x < 0))
  {
    if x == INT_MIN && y == -1 {
      assert TruncDiv(x, y) == INT_MAX + 1;
    } else if y != 0 {
      TruncDivMod(x, y);
      var q := TruncDiv(x, y);
      QuotientInRange(x, y);
      assert Arith(h, Over, Int(x), Int(y)) == Ok(Int(q));
      var m := TruncRem(x, y);
      assert Abs(m) < Abs(y) <= INT_MAX + 1;
      assert -INT_MAX <= m <= INT_MAX;
      assert Arith(h, Modulo, Int(x), Int(y)) == Ok(Int(m));
    }
  }

  /** The truncated quotient of two `int`s fits an `int`, except for `INT_MIN / -1`. */
  lemma QuotientInRange(x: int32, y: int32)
    requires y != 0 && !(x == INT_MIN && y == -1)
    ensures InRange(TruncDiv(x, y))
  {
    var q := TruncDiv(x, y);
    if x != INT_MIN {
      TruncDivBound(x, y);
    } else if y == 1 {
      assert q == x;
    } else {
      TruncDivMod(x, y);
      assert Abs(y) >= 2;
      assert Abs(q) * 2 <= Abs(q) * Abs(y);
      assert Abs(q) * 2 <= INT_MAX + 1;
    }
  }

  /** A unit right operand absorbs all five operators, whatever the left operand. */
  lemma UnitAbsorbsFromTheRight(h: Host, op: ArithOp, a: Value)
    ensures Arith(h, op, a, Unit) == Ok(Unit)
  {
  }

  /** A unit left operand is asymmetric: `@ + n` is an error for a number `n`, while
      `@ - n`, `@ * n`, `@ / n` and `@ % n` are the unit. */
  lemma UnitOnTheLeft(h: Host, op: ArithOp, n: Value)
    requires IsNumber(n)
    ensures op == Plus ==> Arith(h, op, Unit, n) == Raise(InvalidBinOp, Unit)
    ensures op != Plus ==> Arith(h, op, Unit, n) == Ok(Unit)
  {
  }

  /** `+` concatenates two strings, and two lists with the left items first. */
  lemma PlusConcatenates(h: Host, a: Value, b: Value)
    ensures a.Str? && b.Str? ==> Arith(h, Plus, a, b) == Ok(Str(a.s + b.s))
    ensures a.List? && b.List? ==> Arith(h, Plus, a, b) == Ok(List(a.items + b.items))
  {
    if a.List? && b.List? {
      PushEachConcatenates(a.items, b.items);
    }
  }

  /** The errors of `+`: exactly one numeric operand, or a string or list paired
      with a value of another variant (other than the absorbing unit). */
  lemma PlusErrors(h: Host, a: Value, b: Value)
    requires !b.Unit?
    ensures IsNumber(a) != IsNumber(b) ==> Arith(h, Plus, a, b) == Raise(InvalidBinOp, a)
    ensures a.Str? && !b.Str? ==> Arith(h, Plus, a, b) == Raise(InvalidBinOp, a)
    ensures a.List? && !b.List? ==> Arith(h, Plus, a, b) == Raise(InvalidBinOp, a)
  {
  }

  /** Mixed numbers promote: an integer paired with a float becomes a float first. */
  lemma MixedPromotes(h: Host, op: ArithOp, x: int32, d: Double)
    ensures Arith(h, op, Int(x), Float(d)) == Ok(Float(FloatArith(h, op, h.intToDouble(x), d)))
    ensures Arith(h, op, Float(d), Int(x)) == Ok(Float(FloatArith(h, op, d, h.intToDouble(x))))
  {
  }
}
