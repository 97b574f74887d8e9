/** What the reader promises: `debug` output of a printable value reads back as
    that value, unterminated string literals are malformed, a lone comment reads as
    the unit value, and a number literal is a float exactly when it has a dot. */
module ReaderLaws {
  import opened Wrappers
  import opened Int32
  import opened Values
  import opened Render
  import opened Reader
  import opened Seqs

  // ---------------------------------------------------------------------------
  // Printable values

  /** The text of an atom the reader gives back unchanged: nonempty, made of symbol
      characters, and not starting with `@` (the unit value) or `;` (a comment). */
  predicate IsAtomText(a: string) {
    && |a| > 0
    && (forall j | 0 <= j < |a| :: IsSymbol(a[j]))
    && a[0] != '@' && a[0] != ';'
  }

  /** Values whose `debug` rendering reads back as themselves: no floats (the host
      formats them), lambdas or builtins (rendered in a form that is not source
      text), no string holding a backslash (which `debug` does not escape), and no
      smallest `int`, whose literal is out of `atoi`'s range. */
  predicate Printable(v: Value) {
    match v
    case Quote(x) => Printable(x)
    case Atom(a) => IsAtomText(a)
    case Int(n) => n != INT_MIN
    case Str(t) => '\\' !in t
    case List(xs) => forall j | 0 <= j < |xs| :: Printable(xs[j])
    case Unit => true
    case _ => false
  }

  /** After a value's text comes the end of the text, a blank or a closing
      parenthesis. */
  predicate Delimited(s: string, e: nat) {
    e == |s| || (e < |s| && (s[e] == ' ' || s[e] == ')'))
  }

  /** Where a text `a + b + c` sits at `k`, its middle part `b` sits at `k + |a|`,
      followed by the first character of `c`. */
  lemma Inside(s: string, k: nat, a: string, b: string, c: string)
    requires k + |a + b + c| <= |s| && s[k..k + |a + b + c|] == a + b + c
    ensures s[k + |a|..k + |a| + |b|] == b
    ensures |c| > 0 ==> s[k + |a| + |b|] == c[0]
  {
    var d := a + b + c;
    forall i | 0 <= i < |b|
      ensures s[k + |a| + i] == b[i]
    {
      assert d[|a| + i] == b[i];
      assert s[k..k + |d|][|a| + i] == s[k + |a| + i];
    }
    if |c| > 0 {
      assert d[|a| + |b|] == c[0];
      assert s[k..k + |d|][|a| + |b|] == s[k + |a| + |b|];
    }
  }

  /** Where a text `a + " " + c` sits at `k`, `a` sits at `k`, the blank after it and
      `c` after the blank. */
  lemma AroundBlank(s: string, k: nat, a: string, c: string)
    requires k + |a| + 1 + |c| <= |s| && s[k..k + |a| + 1 + |c|] == a + " " + c
    ensures s[k..k + |a|] == a
    ensures s[k + |a|] == ' '
    ensures s[k + |a| + 1..k + |a| + 1 + |c|] == c
  {
    var d := a + " " + c;
    forall i | 0 <= i < |a|
      ensures s[k + i] == a[i]
    {
      assert d[i] == a[i];
      assert s[k..k + |d|][i] == s[k + i];
    }
    assert d[|a|] == ' ';
    assert s[k..k + |d|][|a|] == s[k + |a|];
    forall i | 0 <= i < |c|
      ensures s[k + |a| + 1 + i] == c[i]
    {
      assert d[|a| + 1 + i] == c[i];
      assert s[k..k + |d|][|a| + 1 + i] == s[k + |a| + 1 + i];
    }
  }

  // ---------------------------------------------------------------------------
  // Scanning

  lemma {:induction false} ScanWhileStops(s: string, k: nat, m: nat, p: CharClass)
    requires k + m <= |s|
    requires forall j | k <= j < k + m :: InClass(p, s[j])
    requires k + m == |s| || !InClass(p, s[k + m])
    ensures ScanWhile(s, k, p) == k + m
    decreases m
  {
    if m > 0 {
      ScanWhileStops(s, k + 1, m - 1, p);
    }
  }

  /** The decimal rendering of a natural number has that number as its value. */
  lemma {:induction false} ShowNatValue(n: nat)
    ensures DigitsValue(ShowNat(n)) == n
    decreases n
  {
    if n >= 10 {
      var d := ShowNat(n);
      assert d[..|d| - 1] == ShowNat(n / 10);
      ShowNatValue(n / 10);
    }
  }

  lemma {:induction false} AllDigitsLead(t: string)
    requires AllDigits(t)
    ensures LeadingDigits(t) == t
    decreases |t|
  {
    if |t| > 0 {
      AllDigitsLead(t[1..]);
    }
  }

  /** `atoi` reads back every natural number `ostringstream` writes, within range. */
  lemma ReadShowNat(n: nat)
    requires n <= INT_MAX
    ensures Atoi(ShowNat(n)) == Ok(n)
    ensures '.' !in ShowNat(n)
  {
    AllDigitsLead(ShowNat(n));
    ShowNatValue(n);
  }

  // ---------------------------------------------------------------------------
  // String literals

  /** The unescaping undoes `debug`'s escaping of a backslash-free text, also after
      a backslash-free prefix that is already unescaped. */
  lemma {:induction false} UnescapeEscaped(p: string, u: string)
    requires '\\' !in p && '\\' !in u
    ensures Unescape(p + EscapeQuotes(u)) == p + u
    decreases |u|
  {
    if |u| == 0 {
      assert p + EscapeQuotes(u) == p;
    } else if u[0] != '"' {
      assert p + EscapeQuotes(u) == (p + [u[0]]) + EscapeQuotes(u[1..]);
      UnescapeEscaped(p + [u[0]], u[1..]);
      assert (p + [u[0]]) + u[1..] == p + u;
    } else {
      var rest := EscapeQuotes(u[1..]);
      var x := p + "\\\"" + rest;
      assert p + EscapeQuotes(u) == x;
      var f := FirstEscapedQuote(x, 0);
      assert EscapedQuoteAt(x, |p|);
      assert forall i | 0 <= i < |p| :: !EscapedQuoteAt(x, i) by {
        forall i | 0 <= i < |p| ensures x[i] != '\\' {
          assert x[i] == p[i];
        }
      }
      assert f.Some? && f.value == |p|;
      assert x[..|p|] + "\"" + x[|p| + 2..] == (p + "\"") + rest;
      UnescapeEscaped(p + "\"", u[1..]);
      assert (p + "\"") + u[1..] == p + u;
    }
  }

  /** The string scan runs over an escaped backslash-free text to the quote that
      follows it. */
  lemma {:induction false} ScanStringEscaped(s: string, k: nat, n: nat, u: string, m: nat)
    requires k < |s| && 1 <= n
    requires '\\' !in u
    requires m == n + |EscapeQuotes(u)| && k + m < |s|
    requires s[k + n..k + m] == EscapeQuotes(u) && s[k + m] == '"'
    ensures ScanString(s, k, n) == Ok(m)
    decreases |u|
  {
    var e := EscapeQuotes(u);
    if |u| > 0 {
      var rest := EscapeQuotes(u[1..]);
      if u[0] == '"' {
        assert e == "\\\"" + rest;
        assert s[k + n] == e[0] == '\\';
        assert s[k + n + 2..k + m] == rest by {
          assert s[k + n + 2..k + m] == s[k + n..k + m][2..];
        }
        ScanStringEscaped(s, k, n + 2, u[1..], m);
      } else {
        assert e == [u[0]] + rest;
        assert s[k + n] == e[0] == u[0];
        assert s[k + n + 1..k + m] == rest by {
          assert s[k + n + 1..k + m] == s[k + n..k + m][1..];
        }
        ScanStringEscaped(s, k, n + 1, u[1..], m);
      }
    }
  }

  /** A string literal that no quote closes is malformed, whatever its escapes, as
      long as the text does not end in a backslash (which would step the scan past
      the terminating NUL). */
  lemma {:induction false} ScanStringUnterminated(s: string, k: nat, n: nat)
    requires k < |s| && 1 <= n && k + n <= |s| && s[|s| - 1] != '\\'
    requires forall j | k + n <= j < |s| :: s[j] != '"'
    ensures ScanString(s, k, n) == Fail(Malformed)
    decreases |s| - (k + n)
  {
    if k + n < |s| {
      if s[k + n] == '\\' {
        ScanStringUnterminated(s, k, n + 2);
      } else {
        ScanStringUnterminated(s, k, n + 1);
      }
    }
  }

  /** Wherever a form starts with a quote that nothing after it closes, reading that
      form is malformed: at the top level, inside a list, or after other forms. */
  lemma StringNeverClosed(h: Host, s: string, k: nat)
    requires k < |s| && s[k] == '"' && s[|s| - 1] != '\\'
    requires forall j | k < j < |s| :: s[j] != '"'
    ensures ReadToken(h, s, k) == Fail(Malformed)
    ensures ParseForm(h, s, k) == Fail(Malformed)
  {
    ScanStringUnterminated(s, k, 1);
    assert ReadString(s, k) == Fail(Malformed);
  }

  /** A program that opens a string literal and never closes it is malformed. */
  lemma UnterminatedString(h: Host, t: string)
    requires '"' !in t && (|t| == 0 || t[|t| - 1] != '\\')
    ensures ParseProgram(h, "\"" + t) == Fail(Malformed)
  {
    var s := "\"" + t;
    ScanWhileStops(s, 0, 0, Blanks);
    assert SkipWhitespace(s, 0) == 0;
    forall j | 0 < j < |s|
      ensures s[j] != '"'
    {
      assert s[j] == t[j - 1];
    }
    StringNeverClosed(h, s, 0);
    assert ParseExpr(h, s, 0) == Fail(Malformed);
    assert ParseLoop(h, s, 0, -1, []) == Fail(Malformed);
  }

  /** The same holds for a literal opened as the first item of a list. */
  lemma UnterminatedStringInList(h: Host, t: string)
    requires '"' !in t && (|t| == 0 || t[|t| - 1] != '\\')
    ensures ParseProgram(h, "(\"" + t) == Fail(Malformed)
  {
    var s := "(\"" + t;
    ScanWhileStops(s, 0, 0, Blanks);
    ScanWhileStops(s, 1, 0, Blanks);
    assert SkipWhitespace(s, 0) == 0 && SkipWhitespace(s, 1) == 1;
    forall j | 1 < j < |s|
      ensures s[j] != '"'
    {
      assert s[j] == t[j - 2];
    }
    StringNeverClosed(h, s, 1);
    assert ParseExpr(h, s, 1) == Fail(Malformed);
    assert ParseItems(h, s, 1) == Fail(Malformed);
    assert ParseForm(h, s, 0) == Fail(Malformed);
    assert ParseExpr(h, s, 0) == Fail(Malformed);
    assert ParseLoop(h, s, 0, -1, []) == Fail(Malformed);
  }

  // ---------------------------------------------------------------------------
  // Comments

  /** A program that is a single comment line reads as one unit value: the comment
      is erased, and an empty remainder yields the unit value. */
  lemma CommentOnly(h: Host, c: string)
    requires '\n' !in c
    ensures ParseProgram(h, ";" + c) == Ok([Unit])
  {
    var s := ";" + c;
    ScanWhileStops(s, 0, 0, Blanks);
    assert SkipWhitespace(s, 0) == 0;
    forall j | 0 <= j < |s|
      ensures NotNewline(s[j])
    {
      if j > 0 {
        assert s[j] == c[j - 1];
      }
    }
    ScanWhileStops(s, 0, |s|, LineRest);
    assert s[..0] + s[|s|..] == "";
    ScanWhileStops("", 0, 0, Blanks);
    assert SkipWhitespace("", 0) == 0;
    assert ParseExpr(h, s, 0) == Ok(Parsed(Unit, "", 0));
    assert ParseLoop(h, "", 0, 0, [Unit]) == Ok([Unit]);
    assert ParseLoop(h, s, 0, -1, []) == Ok([Unit]);
  }

  // ---------------------------------------------------------------------------
  // Number literals

  /** A number literal that starts with a digit reads as a float exactly when the
      digits and dots the scan takes in contain a dot; without one it is the integer
      those digits spell, when that fits an `int`. */
  lemma NumberLiteralKind(h: Host, s: string, k: nat)
    requires k < |s| && IsDigit(s[k])
    ensures var e := ScanWhile(s, k, NumeralChars);
      && ('.' in s[k..e] ==> ParseForm(h, s, k).Ok? && ParseForm(h, s, k).value.value.Float?)
      && ('.' !in s[k..e] ==> AllDigits(s[k..e]))
      && ('.' !in s[k..e] && DigitsValue(s[k..e]) <= INT_MAX ==>
            ParseForm(h, s, k) == Ok(Parsed(Int(DigitsValue(s[k..e])), s, SkipWhitespace(s, e))))
  {
    var e := ScanWhile(s, k, NumeralChars);
    var lit := LiteralText(s, k, e);
    assert lit == s[k..e];
    ScanWhileRun(s, k, NumeralChars);
    FormToken(h, s, k);
    TokenNumber(h, s, k);
    if '.' in lit {
      assert Number(h, lit, false).Ok? && Number(h, lit, false).value.Float?;
      ReadNumberAt(h, s, k, e, lit, Number(h, lit, false).value);
    } else {
      assert AllDigits(lit) by {
        forall j | 0 <= j < |lit|
          ensures IsDigit(lit[j])
        {
          assert lit[j] == s[k + j];
          assert InClass(NumeralChars, s[k + j]);
        }
      }
      if DigitsValue(lit) <= INT_MAX {
        NumberOfDigits(h, lit, false);
        ReadNumberAt(h, s, k, e, lit, Int(DigitsValue(lit)));
      }
    }
  }

  /** In `(+ 1 2.5)` the literal `1` is scanned as the one character at index 3, but
      the source's `substr(3, 4)` hands `1 2.` to the conversion, whose dot makes
      the integer literal a float. The span the scan covered reads as `Int(1)`. */
  lemma LiteralAsWrittenMisreads(h: Host)
    ensures ScanWhile("(+ 1 2.5)", 3, NumeralChars) == 4
    ensures LiteralTextAsWritten("(+ 1 2.5)", 3, 4) == "1 2."
    ensures Number(h, LiteralTextAsWritten("(+ 1 2.5)", 3, 4), false).Ok?
    ensures Number(h, LiteralTextAsWritten("(+ 1 2.5)", 3, 4), false).value.Float?
    ensures Number(h, LiteralText("(+ 1 2.5)", 3, 4), false) == Ok(Int(1))
  {
    var s := "(+ 1 2.5)";
    ScanWhileStops(s, 3, 1, NumeralChars);
    assert LiteralTextAsWritten(s, 3, 4) == s[3..7];
    assert '.' in s[3..7] by {
      assert s[3..7][3] == '.';
    }
    assert LiteralText(s, 3, 4) == "1";
    AllDigitsLead("1");
    assert DigitsValue("1") == 1 by {
      assert "1"[..0] == "";
    }
  }

  // ---------------------------------------------------------------------------
  // Reading back `debug` output

  /** The rendering of a printable value is nonempty and does not start with a
      blank, a closing parenthesis or a comment. */
  lemma DebugStart(h: Host, v: Value)
    requires Printable(v)
    ensures |Debug(h, v)| > 0
    ensures var c := Debug(h, v)[0]; !IsSpace(c) && c != ')' && c != ';'
  {
    match v
    case Int(n) =>
    case _ =>
  }

  /** `DebugItems` of a nonempty sequence starts with the rendering of its head. */
  lemma DebugItemsStart(h: Host, xs: seq<Value>)
    requires |xs| > 0
    ensures |DebugItems(h, xs)| >= |Debug(h, xs[0])|
    ensures DebugItems(h, xs)[..|Debug(h, xs[0])|] == Debug(h, xs[0])
  {
  }

  /** A quote character reads the form after it and wraps it. */
  lemma FormQuote(h: Host, s: string, k: nat)
    requires k < |s| && s[k] == '\''
    ensures ParseExpr(h, s, k + 1).Ok? ==>
      ParseForm(h, s, k) == Ok(ParseExpr(h, s, k + 1).value.(value := Quote(ParseExpr(h, s, k + 1).value.value)))
  {
  }

  /** An opening parenthesis reads the items after the blanks that follow it. */
  lemma FormList(h: Host, s: string, k: nat)
    requires k < |s| && s[k] == '('
    ensures var items := ParseItems(h, s, SkipWhitespace(s, k + 1));
      items.Ok? ==>
        ParseForm(h, s, k) == Ok(Parsed(List(items.value.values), items.value.text,
                                        SkipWhitespace(items.value.text, items.value.pos + 1)))
  {
  }

  /** Any other first character starts a token. */
  lemma FormToken(h: Host, s: string, k: nat)
    requires k < |s| && s[k] != '\'' && s[k] != '('
    ensures ParseForm(h, s, k) == ReadToken(h, s, k)
  {
  }

  /** A delimited atom text is read as that atom. */
  lemma ParseAtomAt(h: Host, s: string, k: nat, a: string, e: nat)
    requires IsAtomText(a)
    requires e == k + |a| && e <= |s| && s[k..e] == a
    requires Delimited(s, e)
    ensures ReadToken(h, s, k) == Ok(Parsed(Atom(a), s, SkipWhitespace(s, e)))
  {
    assert s[k] == a[0] by {
      assert s[k..e][0] == s[k];
    }
    forall j | k <= j < e
      ensures IsSymbol(s[j])
    {
      assert s[j] == s[k..e][j - k];
    }
    ScanWhileStops(s, k, |a|, SymbolChars);
    if a[0] == '-' {
      if |a| > 1 {
        assert s[k + 1] == s[k..e][1] == a[1];
        assert IsSymbol(a[1]);
      }
      assert !IsDigit(Peek(s, k + 1));
    }
  }

  /** A literal without a dot converts by `atoi`, negated after a minus. */
  lemma NumberWithoutDot(h: Host, lit: string, negate: bool)
    requires '.' !in lit && Atoi(lit).Ok?
    ensures Number(h, lit, negate) == Ok(Int(Signed(Atoi(lit).value, negate)))
  {
  }

  lemma NoDotInDigits(t: string)
    requires AllDigits(t)
    ensures '.' !in t
  {
  }

  /** A text of digits converts to the integer it spells, negated after a minus. */
  lemma NumberOfDigits(h: Host, digits: string, negate: bool)
    requires AllDigits(digits)
    requires DigitsValue(digits) <= INT_MAX
    ensures Number(h, digits, negate) == Ok(Int(Signed(DigitsValue(digits), negate)))
  {
    AllDigitsLead(digits);
    NoDotInDigits(digits);
    assert Atoi(digits) == Ok(DigitsValue(digits));
    NumberWithoutDot(h, digits, negate);
  }

  /** The number scan over a run of digits stops at the delimiter after it. */
  lemma ScanDigits(s: string, start: nat, digits: string)
    requires AllDigits(digits)
    requires start + |digits| <= |s| && s[start..start + |digits|] == digits
    requires Delimited(s, start + |digits|)
    ensures ScanWhile(s, start, NumeralChars) == start + |digits|
    ensures LiteralText(s, start, start + |digits|) == digits
  {
    var e := start + |digits|;
    forall j | start <= j < e
      ensures IsNumeral(s[j])
    {
      assert s[j] == s[start..e][j - start];
    }
    ScanWhileStops(s, start, |digits|, NumeralChars);
  }

  /** The number literal at `k` reads as `v`, its scan having ended at `e`. */
  predicate NumberAt(h: Host, s: string, k: nat, v: Value, e: nat)
    requires k < |s| && (IsDigit(s[k]) || (s[k] == '-' && IsDigit(Peek(s, k + 1))))
    requires e <= |s|
  {
    ReadNumber(h, s, k) == Ok(Parsed(v, s, SkipWhitespace(s, e)))
  }

  /** A number literal whose scan ends at `e` converts the text scanned over. */
  lemma ReadNumberAt(h: Host, s: string, k: nat, e: nat, lit: string, v: Value)
    requires k < |s| && (IsDigit(s[k]) || (s[k] == '-' && IsDigit(Peek(s, k + 1))))
    requires Start(k, s[k] == '-') <= e <= |s|
    requires ScanWhile(s, Start(k, s[k] == '-'), NumeralChars) == e
    requires LiteralText(s, Start(k, s[k] == '-'), e) == lit
    requires Number(h, lit, s[k] == '-') == Ok(v)
    ensures NumberAt(h, s, k, v, e)
  {
  }

  /** Where a number literal's digits start: after the minus sign, if any. */
  function Start(k: nat, negate: bool): nat {
    if negate then k + 1 else k
  }

  /** A literal's magnitude with the sign applied. */
  function Signed(n: int, negate: bool): int {
    if negate then -n else n
  }

  /** The magnitude `ostringstream` writes after the sign. */
  function Magnitude(n: int32): nat {
    if n < 0 then -(n as int) else n
  }

  /** The decimal rendering of a natural number is a run of digits that spells it. */
  lemma ShowNatDigits(m: nat)
    ensures |ShowNat(m)| > 0 && AllDigits(ShowNat(m)) && DigitsValue(ShowNat(m)) == m
  {
    ShowNatValue(m);
  }

  /** The rendering of an integer is its sign, if negative, and then its digits. */
  lemma ShowIntParts(n: int32)
    ensures ShowInt(n) == if n < 0 then "-" + ShowNat(Magnitude(n)) else ShowNat(Magnitude(n))
  {
  }

  /** A run of digits at `start`, delimited after it, is what the number scan
      takes in from `start`. */
  lemma DigitsSpan(s: string, start: nat, digits: string)
    requires |digits| > 0 && AllDigits(digits)
    requires start + |digits| <= |s| && s[start..start + |digits|] == digits
    requires Delimited(s, start + |digits|)
    ensures start < |s| && IsDigit(s[start])
    ensures ScanWhile(s, start, NumeralChars) == start + |digits|
    ensures LiteralText(s, start, start + |digits|) == digits
  {
    assert s[start] == s[start..start + |digits|][0];
    assert IsDigit(digits[0]);
    ScanDigits(s, start, digits);
  }

  /** A delimited run of digits at `k`, or after a minus sign at `k`, reads as the
      integer `n` the digits spell, negated after a minus sign; the scan ends at `e`. */
  lemma DigitsRead(h: Host, s: string, k: nat, negate: bool, digits: string, e: nat, n: int)
    requires |digits| > 0 && AllDigits(digits) && DigitsValue(digits) <= INT_MAX
    requires k < |s| && negate == (s[k] == '-')
    requires e == Start(k, negate) + |digits| && n == Signed(DigitsValue(digits), negate)
    requires e <= |s| && s[Start(k, negate)..e] == digits
    requires Delimited(s, e)
    ensures InRange(n)
    ensures IsDigit(s[k]) || (s[k] == '-' && IsDigit(Peek(s, k + 1)))
    ensures NumberAt(h, s, k, Int(n), e)
  {
    DigitsSpan(s, Start(k, negate), digits);
    NumberOfDigits(h, digits, negate);
    ReadNumberAt(h, s, k, e, digits, Int(n));
  }

  /** The rendering of a negative integer at `k` is a minus sign and its digits. */
  lemma NegativeSplit(s: string, k: nat, n: int32, e: nat)
    requires n < 0
    requires e == k + |ShowInt(n)| && e <= |s| && s[k..e] == ShowInt(n)
    ensures e == k + 1 + |ShowNat(Magnitude(n))|
    ensures s[k] == '-' && s[k + 1..e] == ShowNat(Magnitude(n))
  {
    ShowIntParts(n);
    assert s[k] == ShowInt(n)[0];
    assert s[k + 1..e] == s[k..e][1..];
  }

  /** An integer other than the smallest, written by `debug` and delimited, reads
      back as itself. */
  lemma ParseIntAt(h: Host, s: string, k: nat, n: int32, e: nat)
    requires n != INT_MIN
    requires e == k + |ShowInt(n)| && e <= |s| && s[k..e] == ShowInt(n)
    requires Delimited(s, e)
    ensures k < |s| && (IsDigit(s[k]) || (s[k] == '-' && IsDigit(Peek(s, k + 1))))
    ensures NumberAt(h, s, k, Int(n), e)
  {
    var m := Magnitude(n);
    assert InRange(n);
    ShowNatDigits(m);
    if n < 0 {
      NegativeSplit(s, k, n, e);
    } else {
      ShowIntParts(n);
      assert ShowInt(n) == ShowNat(m);
      assert s[k] == s[k..e][0];
    }
    assert Signed(DigitsValue(ShowNat(m)), n < 0) == n;
    DigitsRead(h, s, k, n < 0, ShowNat(m), e, n);
  }

  /** A digit, or a minus followed by a digit, starts a number. */
  lemma TokenNumber(h: Host, s: string, k: nat)
    requires k < |s| && (IsDigit(s[k]) || (s[k] == '-' && IsDigit(Peek(s, k + 1))))
    ensures ReadToken(h, s, k) == ReadNumber(h, s, k)
  {
  }

  /** A double quote starts a string literal. */
  lemma TokenString(h: Host, s: string, k: nat)
    requires k < |s| && s[k] == '"'
    ensures ReadToken(h, s, k) == ReadString(s, k)
  {
  }

  /** A string literal whose scan ends `n` characters on reads its unescaped text. */
  lemma ReadStringScanned(s: string, k: nat, n: nat, t: string, e: nat)
    requires k < |s| && s[k] == '"'
    requires ScanString(s, k, 1) == Ok(n)
    requires t == Unescape(s[k + 1..k + n]) && e == k + n + 1
    ensures ReadString(s, k) == Ok(Parsed(Str(t), s, SkipWhitespace(s, e)))
  {
    ReadStringIsLiteral(s, k, n);
    LiteralOfScan(s, k, n, t, e);
  }

  /** The literal delimited by a scan of `n` characters holds the unescaped text
      between the quotes, and reading continues after the closing quote. */
  lemma LiteralOfScan(s: string, k: nat, n: nat, t: string, e: nat)
    requires 1 <= n && k + n < |s|
    requires t == Unescape(s[k + 1..k + n]) && e == k + n + 1
    ensures StringLiteral(s, k, n) == Parsed(Str(t), s, SkipWhitespace(s, e))
  {
  }

  /** A string literal whose scan succeeds reads as the literal the scan delimits. */
  lemma ReadStringIsLiteral(s: string, k: nat, n: nat)
    requires k < |s| && s[k] == '"'
    requires ScanString(s, k, 1) == Ok(n)
    ensures 1 <= n && k + n < |s|
    ensures ReadString(s, k) == Ok(StringLiteral(s, k, n))
  {
  }

  /** A quoted, escaped, backslash-free text reads back as that text. */
  lemma ReadEscaped(s: string, k: nat, t: string, n: nat, e: nat)
    requires '\\' !in t
    requires n == 1 + |EscapeQuotes(t)| && e == k + n + 1 && e <= |s|
    requires s[k] == '"' && s[k + 1..k + n] == EscapeQuotes(t) && s[k + n] == '"'
    ensures ReadString(s, k) == Ok(Parsed(Str(t), s, SkipWhitespace(s, e)))
  {
    ScanStringEscaped(s, k, 1, t, n);
    UnescapeEscaped("", t);
    assert "" + EscapeQuotes(t) == EscapeQuotes(t);
    assert "" + t == t;
    ReadStringScanned(s, k, n, t, e);
  }

  /** The `debug` rendering of a backslash-free string reads back as that string. */
  lemma ParseStrAt(h: Host, s: string, k: nat, t: string, e: nat)
    requires '\\' !in t
    requires e == k + |Debug(h, Str(t))| && e <= |s| && s[k..e] == Debug(h, Str(t))
    ensures k < |s| && s[k] == '"'
    ensures ReadString(s, k) == Ok(Parsed(Str(t), s, SkipWhitespace(s, e)))
  {
    var esc := EscapeQuotes(t);
    var n := 1 + |esc|;
    assert Debug(h, Str(t)) == "\"" + esc + "\"";
    assert s[k] == '"' by {
      assert s[k..e][0] == s[k];
    }
    Inside(s, k, "\"", esc, "\"");
    assert s[k + 1..k + n] == esc;
    ReadEscaped(s, k, t, n, e);
  }

  /** The first character of a text sits where the text starts. */
  lemma FirstChar(s: string, k: nat, d: string)
    requires |d| > 0 && k + |d| <= |s| && s[k..k + |d|] == d
    ensures s[k] == d[0]
  {
    assert s[k..k + |d|][0] == s[k];
  }

  /** Blanks are skipped up to the first character of a printable value's rendering
      or up to a closing parenthesis. */
  lemma NoBlankBefore(h: Host, s: string, k: nat, xs: seq<Value>, m: nat)
    requires forall j | 0 <= j < |xs| :: Printable(xs[j])
    requires ItemsRenderedAt(h, xs, s, k, m)
    ensures SkipWhitespace(s, k) == k
    ensures Peek(s, k) != ')' <==> |xs| > 0
  {
    if |xs| > 0 {
      var d0 := Debug(h, xs[0]);
      var di := DebugItems(h, xs);
      DebugItemsStart(h, xs);
      DebugStart(h, xs[0]);
      assert di[0] == d0[0];
      FirstChar(s, k, di);
    }
    ScanWhileStops(s, k, 0, Blanks);
  }

  /** No blank and no comment at `k`: reading starts with the form there. */
  lemma ExprIsForm(h: Host, s: string, k: nat)
    requires k < |s| && !IsSpace(s[k]) && s[k] != ';'
    ensures ParseExpr(h, s, k) == ParseForm(h, s, k)
  {
    ScanWhileStops(s, k, 0, Blanks);
  }

  /** Reading at `k` gives `v`, leaves the text unchanged and continues after the
      blanks that start at `e`. */
  predicate ReadsTo(h: Host, s: string, k: nat, v: Value, e: nat)
    requires k <= |s| && e <= |s|
  {
    ParseExpr(h, s, k) == Ok(Parsed(v, s, SkipWhitespace(s, e)))
  }

  /** Reading list items at `k` gives `xs`, leaves the text unchanged and stops at
      the closing parenthesis at `m`. */
  predicate ItemsReadTo(h: Host, s: string, k: nat, xs: seq<Value>, m: nat)
    requires 1 <= k <= |s|
  {
    ParseItems(h, s, k) == Ok(ParsedSeq(xs, s, m))
  }

  /** The `debug` rendering of `v` spans `s[k..e)` and is followed by the end of the
      text, a blank or a closing parenthesis. */
  predicate RenderedAt(h: Host, v: Value, s: string, k: nat, e: nat) {
    e == k + |Debug(h, v)| && e <= |s| && s[k..e] == Debug(h, v) && Delimited(s, e)
  }

  /** The `debug` renderings of `xs`, separated by blanks, span `s[k..m)`, and a
      closing parenthesis sits at `m`. */
  predicate ItemsRenderedAt(h: Host, xs: seq<Value>, s: string, k: nat, m: nat) {
    m == k + |DebugItems(h, xs)| && m < |s| && s[k..m] == DebugItems(h, xs) && s[m] == ')'
  }

  lemma QuoteRead(h: Host, s: string, k: nat, x: Value, e: nat)
    requires k < |s| && s[k] == '\'' && e <= |s|
    requires ReadsTo(h, s, k + 1, x, e)
    ensures ReadsTo(h, s, k, Quote(x), e)
  {
    ExprIsForm(h, s, k);
    FormQuote(h, s, k);
  }

  lemma ListRead(h: Host, s: string, k: nat, xs: seq<Value>, j: nat, e: nat)
    requires k + 1 < |s| && s[k] == '('
    requires SkipWhitespace(s, k + 1) == k + 1
    requires ItemsReadTo(h, s, k + 1, xs, j) && e == j + 1 && e <= |s|
    ensures ReadsTo(h, s, k, List(xs), e)
  {
    ExprIsForm(h, s, k);
    FormList(h, s, k);
  }

  lemma TokenRead(h: Host, s: string, k: nat)
    requires k < |s| && !IsSpace(s[k]) && s[k] != ';' && s[k] != '\'' && s[k] != '('
    ensures ParseExpr(h, s, k) == ReadToken(h, s, k)
  {
    ExprIsForm(h, s, k);
    FormToken(h, s, k);
  }

  lemma UnitRead(h: Host, s: string, k: nat, e: nat)
    requires k < |s| && s[k] == '@' && e == k + 1
    ensures ReadsTo(h, s, k, Unit, e)
  {
    TokenRead(h, s, k);
  }

  lemma AtomRead(h: Host, s: string, k: nat, a: string, e: nat)
    requires IsAtomText(a)
    requires e == k + |a| && e <= |s| && s[k..e] == a
    requires Delimited(s, e)
    ensures ReadsTo(h, s, k, Atom(a), e)
  {
    FirstChar(s, k, a);
    TokenRead(h, s, k);
    ParseAtomAt(h, s, k, a, e);
  }

  lemma IntRead(h: Host, s: string, k: nat, n: int32, e: nat)
    requires n != INT_MIN
    requires e == k + |ShowInt(n)| && e <= |s| && s[k..e] == ShowInt(n)
    requires Delimited(s, e)
    ensures ReadsTo(h, s, k, Int(n), e)
  {
    ParseIntAt(h, s, k, n, e);
    TokenRead(h, s, k);
    TokenNumber(h, s, k);
  }

  lemma StrRead(h: Host, s: string, k: nat, t: string, e: nat)
    requires '\\' !in t
    requires e == k + |Debug(h, Str(t))| && e <= |s| && s[k..e] == Debug(h, Str(t))
    ensures ReadsTo(h, s, k, Str(t), e)
  {
    ParseStrAt(h, s, k, t, e);
    TokenRead(h, s, k);
    TokenString(h, s, k);
  }

  /** The rendering of a quote is a `'` followed by the rendering of the quoted
      value. */
  lemma QuoteDebugged(h: Host, x: Value, s: string, k: nat, e: nat)
    requires e == k + |Debug(h, Quote(x))| && e <= |s| && s[k..e] == Debug(h, Quote(x))
    ensures e == k + 1 + |Debug(h, x)|
    ensures s[k + 1..e] == Debug(h, x)
    ensures k < |s| && s[k] == '\''
  {
    var dx := Debug(h, x);
    assert Debug(h, Quote(x)) == "'" + dx + "";
    Inside(s, k, "'", dx, "");
    FirstChar(s, k, Debug(h, Quote(x)));
  }

  /** The rendering of a list is `(`, the rendering of its items, and `)`; no blank
      comes after the opening parenthesis. */
  lemma ListDebugged(h: Host, xs: seq<Value>, s: string, k: nat, j: nat, e: nat)
    requires forall i | 0 <= i < |xs| :: Printable(xs[i])
    requires j == k + 1 + |DebugItems(h, xs)|
    requires e == k + |Debug(h, List(xs))| && e <= |s| && s[k..e] == Debug(h, List(xs))
    ensures e == j + 1
    ensures ItemsRenderedAt(h, xs, s, k + 1, j)
    ensures s[k] == '(' && SkipWhitespace(s, k + 1) == k + 1
  {
    var di := DebugItems(h, xs);
    assert Debug(h, List(xs)) == "(" + di + ")";
    Inside(s, k, "(", di, ")");
    FirstChar(s, k, Debug(h, List(xs)));
    NoBlankBefore(h, s, k + 1, xs, j);
  }

  /** A `)` ends the items of a list. */
  lemma ItemsEnd(h: Host, s: string, k: nat)
    requires 1 <= k < |s| && s[k] == ')'
    ensures ParseItems(h, s, k) == Ok(ParsedSeq([], s, k))
  {
  }

  /** Any other character starts the next item, read as a form. */
  lemma ItemsNext(h: Host, s: string, k: nat, xs: seq<Value>, j: nat, m: nat)
    requires |xs| > 0
    requires 1 <= k <= |s| && Peek(s, k) != ')'
    requires ParseExpr(h, s, k) == Ok(Parsed(xs[0], s, j))
    requires 1 <= j <= |s| && ParseItems(h, s, j) == Ok(ParsedSeq(xs[1..], s, m))
    ensures ParseItems(h, s, k) == Ok(ParsedSeq(xs, s, m))
  {
    HeadTail(xs);
  }

  lemma AtomCase(h: Host, v: Value, s: string, k: nat, e: nat)
    requires v.Atom? && Printable(v) && RenderedAt(h, v, s, k, e)
    ensures ReadsTo(h, s, k, v, e)
  {
    assert Debug(h, v) == v.name;
    AtomRead(h, s, k, v.name, e);
  }

  lemma IntCase(h: Host, v: Value, s: string, k: nat, e: nat)
    requires v.Int? && Printable(v) && RenderedAt(h, v, s, k, e)
    ensures ReadsTo(h, s, k, v, e)
  {
    assert Debug(h, v) == ShowInt(v.i);
    IntRead(h, s, k, v.i, e);
  }

  lemma StrCase(h: Host, v: Value, s: string, k: nat, e: nat)
    requires v.Str? && Printable(v) && RenderedAt(h, v, s, k, e)
    ensures ReadsTo(h, s, k, v, e)
  {
    assert v == Str(v.s);
    StrRead(h, s, k, v.s, e);
  }

  lemma UnitCase(h: Host, v: Value, s: string, k: nat, e: nat)
    requires v.Unit? && RenderedAt(h, v, s, k, e)
    ensures ReadsTo(h, s, k, v, e)
  {
    assert Debug(h, v) == "@";
    FirstChar(s, k, "@");
    UnitRead(h, s, k, e);
  }

  lemma QuoteCase(h: Host, v: Value, s: string, k: nat, e: nat)
    requires v.Quote? && RenderedAt(h, v, s, k, e)
    ensures k < |s|
    ensures RenderedAt(h, v.inner, s, k + 1, e)
    ensures ReadsTo(h, s, k + 1, v.inner, e) ==> ReadsTo(h, s, k, v, e)
  {
    QuoteDebugged(h, v.inner, s, k, e);
    if ReadsTo(h, s, k + 1, v.inner, e) {
      QuoteRead(h, s, k, v.inner, e);
    }
  }

  lemma ListCase(h: Host, v: Value, s: string, k: nat, j: nat, e: nat)
    requires v.List? && Printable(v) && RenderedAt(h, v, s, k, e)
    requires j == k + 1 + |DebugItems(h, v.items)|
    ensures ItemsRenderedAt(h, v.items, s, k + 1, j)
    ensures ItemsReadTo(h, s, k + 1, v.items, j) ==> ReadsTo(h, s, k, v, e)
  {
    ListDebugged(h, v.items, s, k, j, e);
    if ItemsReadTo(h, s, k + 1, v.items, j) {
      ListRead(h, s, k, v.items, j, e);
    }
  }

  /** Reading at the start of the `debug` rendering of a printable value gives that
      value back, leaves the text unchanged and continues after the blanks that
      follow the rendering. */
  lemma {:induction false} ParseDebugged(h: Host, v: Value, s: string, k: nat, e: nat)
    requires Printable(v) && RenderedAt(h, v, s, k, e)
    ensures ReadsTo(h, s, k, v, e)
    decreases v
  {
    if v.Quote? {
      QuoteCase(h, v, s, k, e);
      ParseDebugged(h, v.inner, s, k + 1, e);
    } else if v.Atom? {
      AtomCase(h, v, s, k, e);
    } else if v.Int? {
      IntCase(h, v, s, k, e);
    } else if v.Str? {
      StrCase(h, v, s, k, e);
    } else if v.List? {
      var j := k + 1 + |DebugItems(h, v.items)|;
      ListCase(h, v, s, k, j, e);
      ParseItemsDebugged(h, v.items, s, k + 1, j);
    } else {
      UnitCase(h, v, s, k, e);
    }
  }

  /** The rendering of two or more items is the rendering of the first, a blank, and
      the rendering of the rest, which starts with no blank. */
  lemma ItemsDebugged(h: Host, xs: seq<Value>, s: string, k: nat, m: nat, e0: nat)
    requires |xs| >= 2
    requires forall j | 0 <= j < |xs| :: Printable(xs[j])
    requires ItemsRenderedAt(h, xs, s, k, m) && e0 == k + |Debug(h, xs[0])|
    ensures RenderedAt(h, xs[0], s, k, e0)
    ensures ItemsRenderedAt(h, xs[1..], s, e0 + 1, m)
    ensures SkipWhitespace(s, e0) == e0 + 1
  {
    var d0 := Debug(h, xs[0]);
    var rest := DebugItems(h, xs[1..]);
    assert DebugItems(h, xs) == d0 + " " + rest;
    AroundBlank(s, k, d0, rest);
    assert m == e0 + 1 + |rest|;
    assert ItemsRenderedAt(h, xs[1..], s, e0 + 1, m);
    NoBlankBefore(h, s, e0 + 1, xs[1..], m);
    assert InClass(Blanks, s[e0]) && !InClass(Blanks, s[e0 + 1]);
    ScanWhileStops(s, e0, 1, Blanks);
  }

  lemma NoItemsCase(h: Host, xs: seq<Value>, s: string, k: nat, m: nat)
    requires 1 <= k && |xs| == 0 && ItemsRenderedAt(h, xs, s, k, m)
    ensures ItemsReadTo(h, s, k, xs, m)
  {
    assert DebugItems(h, xs) == "";
    ItemsEnd(h, s, k);
  }

  lemma OneItemCase(h: Host, xs: seq<Value>, s: string, k: nat, m: nat)
    requires 1 <= k && |xs| == 1 && Printable(xs[0]) && ItemsRenderedAt(h, xs, s, k, m)
    ensures RenderedAt(h, xs[0], s, k, m)
    ensures ReadsTo(h, s, k, xs[0], m) ==> ItemsReadTo(h, s, k, xs, m)
  {
    assert DebugItems(h, xs) == Debug(h, xs[0]);
    NoBlankBefore(h, s, k, xs, m);
    ScanWhileStops(s, m, 0, Blanks);
    if ReadsTo(h, s, k, xs[0], m) {
      ItemsEnd(h, s, m);
      assert xs[1..] == [];
      ItemsNext(h, s, k, xs, m, m);
    }
  }

  /** A first item read up to a single blank, then the rest: the whole sequence. */
  lemma ItemsStep(h: Host, s: string, k: nat, xs: seq<Value>, e0: nat, m: nat)
    requires |xs| > 0 && 1 <= k <= |s| && Peek(s, k) != ')'
    requires e0 < |s| && ReadsTo(h, s, k, xs[0], e0) && SkipWhitespace(s, e0) == e0 + 1
    requires ItemsReadTo(h, s, e0 + 1, xs[1..], m)
    ensures ItemsReadTo(h, s, k, xs, m)
  {
    ItemsNext(h, s, k, xs, e0 + 1, m);
  }

  /** Reading the items of a list from the `debug` rendering of printable values,
      followed by `)`, gives those values back and stops at the parenthesis. */
  lemma {:induction false} ParseItemsDebugged(h: Host, xs: seq<Value>, s: string, k: nat, m: nat)
    requires 1 <= k
    requires forall j | 0 <= j < |xs| :: Printable(xs[j])
    requires ItemsRenderedAt(h, xs, s, k, m)
    ensures ItemsReadTo(h, s, k, xs, m)
    decreases xs
  {
    if |xs| == 0 {
      NoItemsCase(h, xs, s, k, m);
    } else if |xs| == 1 {
      OneItemCase(h, xs, s, k, m);
      ParseDebugged(h, xs[0], s, k, m);
    } else {
      var e0 := k + |Debug(h, xs[0])|;
      NoBlankBefore(h, s, k, xs, m);
      ItemsDebugged(h, xs, s, k, m, e0);
      ParseDebugged(h, xs[0], s, k, e0);
      ParseItemsDebugged(h, xs[1..], s, e0 + 1, m);
      ItemsStep(h, s, k, xs, e0, m);
    }
  }

  /** The reader gives back a printable value from its `debug` rendering. */
  lemma ReadBackDebug(h: Host, v: Value)
    requires Printable(v)
    ensures ParseProgram(h, Debug(h, v)) == Ok([v])
  {
    var d := Debug(h, v);
    assert d[0..|d|] == d;
    DebugStart(h, v);
    ParseDebugged(h, v, d, 0, |d|);
    ScanWhileStops(d, |d|, 0, Blanks);
    assert ParseExpr(h, d, 0) == Ok(Parsed(v, d, |d|));
    assert ParseLoop(h, d, |d|, 0, [v]) == Ok([v]);
    assert ParseLoop(h, d, 0, -1, []) == Ok([v]);
  }
}
