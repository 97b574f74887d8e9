/** The recursive-descent reader that turns program text into values.

    The reader works on a `std::string` it may edit (a comment is erased from the
    text in place) and an index into it; every parse step therefore returns the
    possibly edited text together with the new index. Reading the character at
    index `|s|` yields the terminating NUL, as `std::string` does. */
module Reader {
  import opened Wrappers
  import opened Int32
  import opened Values

  /** `s[k]` for `k <= |s|`: the character, or the terminating NUL at the end. */
  function Peek(s: string, k: nat): char
    requires k <= |s|
  {
    if k == |s| then '\0' else s[k]
  }

  // ---------------------------------------------------------------------------
  // Character classes of the "C" locale

  predicate IsSpace(c: char) {
    c == ' ' || '\t' <= c <= '\r'
  }

  predicate IsDigit(c: char) {
    '0' <= c <= '9'
  }

  predicate IsAlpha(c: char) {
    'A' <= c <= 'Z' || 'a' <= c <= 'z'
  }

  predicate IsPunct(c: char) {
    '!' <= c <= '/' || ':' <= c <= '@' || '[' <= c <= '`' || '{' <= c <= '~'
  }

  /** A character an atom may contain: a letter or punctuation other than the
      parentheses and the two quote characters. Digits are not symbol characters. */
  predicate IsSymbol(c: char) {
    (IsAlpha(c) || IsPunct(c)) && c != '(' && c != ')' && c != '"' && c != '\''
  }

  /** A character a number literal's scan takes in. */
  predicate IsNumeral(c: char) {
    IsDigit(c) || c == '.'
  }

  predicate NotNewline(c: char) {
    c != '\n'
  }

  /** The character classes the reader scans runs of. */
  datatype CharClass = Blanks | LineRest | SymbolChars | NumeralChars

  predicate InClass(p: CharClass, c: char) {
    match p
    case Blanks => IsSpace(c)
    case LineRest => NotNewline(c)
    case SymbolChars => IsSymbol(c)
    case NumeralChars => IsNumeral(c)
  }

  /** The end of the longest run of characters of class `p` that starts at `k`.
      The scans of the reader all stop at the end of the text: the NUL found there
      is neither a space, a digit, a dot nor a symbol character, and the comment
      scan tests the index explicitly. */
  function ScanWhile(s: string, k: nat, p: CharClass): (r: nat)
    requires k <= |s|
    ensures k <= r <= |s|
    ensures r == |s| || !InClass(p, s[r])
    decreases |s| - k
  {
    if k < |s| && InClass(p, s[k]) then ScanWhile(s, k + 1, p) else k
  }

  /** Every character the scan passes over is of the class scanned for. */
  lemma {:induction false} ScanWhileRun(s: string, k: nat, p: CharClass)
    requires k <= |s|
    ensures forall j | k <= j < ScanWhile(s, k, p) :: InClass(p, s[j])
    decreases |s| - k
  {
    if k < |s| && InClass(p, s[k]) {
      ScanWhileRun(s, k + 1, p);
    }
  }

  /** `skip_whitespace`. */
  function SkipWhitespace(s: string, k: nat): (r: nat)
    requires k <= |s|
    ensures k <= r <= |s|
  {
    ScanWhile(s, k, Blanks)
  }

  /** `std::string::substr(pos, count)`: the count is clamped to the end. */
  function Substr(s: string, pos: nat, count: nat): (r: string)
    requires pos <= |s|
    ensures |r| == if pos + count <= |s| then count else |s| - pos
    ensures forall j | 0 <= j < |r| :: r[j] == s[pos + j]
  {
    if pos + count <= |s| then s[pos..pos + count] else s[pos..]
  }

  // ---------------------------------------------------------------------------
  // Number literals

  predicate AllDigits(t: string) {
    forall j | 0 <= j < |t| :: IsDigit(t[j])
  }

  /** The value of a string of decimal digits. */
  function DigitsValue(d: string): nat
    requires AllDigits(d)
  {
    if |d| == 0 then 0
    else
      assert IsDigit(d[|d| - 1]);
      DigitsValue(d[..|d| - 1]) * 10 + (d[|d| - 1] as int - '0' as int)
  }

  /** The digits a text starts with. */
  function LeadingDigits(t: string): (r: string)
    ensures |r| <= |t| && r == t[..|r|]
    ensures AllDigits(r)
    ensures |r| == |t| || !IsDigit(t[|r|])
  {
    if |t| > 0 && IsDigit(t[0]) then [t[0]] + LeadingDigits(t[1..]) else ""
  }

  /** C `atoi` on a text that is not preceded by blanks or a sign: the value of the
      leading digits; it is undefined when that value does not fit an `int`. */
  function Atoi(t: string): (r: Res<int32>)
    ensures r.Ok? <==> DigitsValue(LeadingDigits(t)) <= INT_MAX
    ensures r.Ok? ==> r.value == DigitsValue(LeadingDigits(t))
    ensures r.Fail? ==> r.error == Undefined(LiteralOutOfRange)
  {
    var n := DigitsValue(LeadingDigits(t));
    if n <= INT_MAX then Ok(n) else Fail(Undefined(LiteralOutOfRange))
  }

  /** The value of a number literal whose text (after the optional minus sign) is
      `lit`: a float when the text holds a dot, converted by the host's `atof` and
      multiplied by the sign; otherwise the `atoi` value, negated for a minus. */
  function Number(h: Host, lit: string, negate: bool): Res<Value> {
    if '.' in lit then
      // The source converts the sign straight to `double`; for -1 and 1 that is
      // the same value as going through `float`.
      Ok(Float(h.mul(h.intToDouble(if negate then -1 else 1), h.atof(lit))))
    else
      var n :- Atoi(lit);
      Ok(Int(if negate then -n else n))
  }

  /** The literal text the reader hands to `Number` for digits and dots scanned over
      `s[start..end)`: exactly that span. This is the corrected reading of line 880 of
      `wisp.cpp` (see Findings in the README); `LiteralTextAsWritten` is the text the
      line as written takes. */
  function LiteralText(s: string, start: nat, end: nat): (r: string)
    requires start <= end <= |s|
    ensures |r| == end - start
    ensures forall j | 0 <= j < |r| :: r[j] == s[start + j]
  {
    Substr(s, start, end - start)
  }

  /** The literal text as the source computes it, `s.substr(start, end)`: the end
      index is passed where `substr` expects a length, so for a literal that does
      not start at the beginning of the text the span runs on past its end. */
  function LiteralTextAsWritten(s: string, start: nat, end: nat): (r: string)
    requires start <= end <= |s|
  {
    Substr(s, start, end)
  }

  // ---------------------------------------------------------------------------
  // String literals

  /** The length of a string literal opening at `s[k]`, measured from the opening
      quote to the closing one: a backslash makes the scan skip the next character.
      Reaching the end of the text is a malformed program; stepping over the
      terminating NUL (a backslash as the last character) reads past the string. */
  function ScanString(s: string, k: nat, n: nat): (r: Res<nat>)
    requires k < |s| && 1 <= n
    ensures r.Ok? ==> n <= r.value && k + r.value < |s| && s[k + r.value] == '"'
    ensures r.Fail? ==> r.error == Malformed || r.error == Undefined(ReadPastEnd)
    decreases |s| + 1 - (k + n)
  {
    if k + n > |s| then Fail(Undefined(ReadPastEnd))
    else if Peek(s, k + n) == '"' then Ok(n)
    else if k + n >= |s| then Fail(Malformed)
    else if s[k + n] == '\\' then ScanString(s, k, n + 2)
    else ScanString(s, k, n + 1)
  }

  /** A `\"` pair starts at `x[i]`. */
  predicate EscapedQuoteAt(x: string, i: nat) {
    i + 1 < |x| && x[i] == '\\' && x[i + 1] == '"'
  }

  /** The index of the first `\"` pair at or after `j`. */
  function FirstEscapedQuote(x: string, j: nat): (r: Option<nat>)
    ensures r.Some? ==> j <= r.value && EscapedQuoteAt(x, r.value)
    ensures r.Some? ==> forall i | j <= i < r.value :: !EscapedQuoteAt(x, i)
    ensures r.None? ==> forall i | j <= i :: !EscapedQuoteAt(x, i)
    decreases |x| - j
  {
    if j + 1 >= |x| then None
    else if EscapedQuoteAt(x, j) then Some(j)
    else FirstEscapedQuote(x, j + 1)
  }

  /** The unescaping of a string literal's text: while the text holds a `\"` pair,
      its first occurrence becomes a lone `"` and the search restarts from the
      beginning. No other escape is recognised. */
  function Unescape(x: string): (r: string)
    ensures FirstEscapedQuote(r, 0).None?
    ensures |r| <= |x|
    decreases |x|
  {
    match FirstEscapedQuote(x, 0)
    case None => x
    case Some(i) => Unescape(x[..i] + "\"" + x[i + 2..])
  }

  // ---------------------------------------------------------------------------
  // The reader proper

  /** A value read, the text after the step (a comment may have been erased) and
      the index where reading continues. */
  datatype Parsed = Parsed(value: Value, text: string, pos: nat)

  /** The items of a list read up to its closing parenthesis, which sits at `pos`. */
  datatype ParsedSeq = ParsedSeq(values: seq<Value>, text: string, pos: nat)

  /** `parse(s, ptr)`: skip blanks; a `;` at that point starts a comment running to
      the end of the line, which is erased from the text, after which the blanks are
      skipped again and a text with at most one character left yields the unit
      value. Only one comment is handled this way: a second `;` is read as the
      start of an atom. Every successful read moves strictly forward in the sense
      that the distance to the end of the text shrinks. */
  function ParseExpr(h: Host, s: string, ptr: nat): (r: Res<Parsed>)
    requires ptr <= |s|
    ensures r.Ok? ==> ptr <= r.value.pos <= |r.value.text|
    ensures r.Ok? && |s| > 0 ==> |r.value.text| - r.value.pos < |s| - ptr
    decreases |s| - ptr, 2
  {
    var k := SkipWhitespace(s, ptr);
    if Peek(s, k) == ';' then
      var e := ScanWhile(s, k, LineRest);
      var s' := s[..k] + s[e..];
      var k' := SkipWhitespace(s', k);
      if k' + 1 >= |s'| then Ok(Parsed(Unit, s', k'))
      else ParseForm(h, s', k')
    else
      ParseForm(h, s, k)
  }

  /** The form starting at `s[k]`, chosen by its first character: a quote, a list,
      a number (a digit, or a minus followed by a digit), a string literal, the
      unit value `@`, or an atom; anything else is a malformed program. Each form
      is followed by skipping blanks. */
  function ParseForm(h: Host, s: string, k: nat): (r: Res<Parsed>)
    requires k <= |s|
    ensures r.Ok? ==> k <= r.value.pos <= |r.value.text|
    ensures r.Ok? && |s| > 0 ==> |r.value.text| - r.value.pos < |s| - k
    decreases |s| - k, 1
  {
    if |s| == 0 then Ok(Parsed(Unit, s, k))
    else if k == |s| then Fail(Malformed)  // the terminating NUL starts no form
    else
      var c := s[k];
      if c == '\'' then
        var r :- ParseExpr(h, s, k + 1);
        Ok(r.(value := Quote(r.value)))
      else if c == '(' then
        var items :- ParseItems(h, s, SkipWhitespace(s, k + 1));
        Ok(Parsed(List(items.values), items.text, SkipWhitespace(items.text, items.pos + 1)))
      else
        ReadToken(h, s, k)
  }

  /** A form that does not contain other forms: a number (a digit, or a minus
      followed by a digit), a string literal, the unit value `@` or an atom;
      anything else is a malformed program. */
  function ReadToken(h: Host, s: string, k: nat): (r: Res<Parsed>)
    requires k < |s|
    ensures r.Ok? ==> r.value.text == s && k < r.value.pos <= |s|
  {
    var c := s[k];
    if IsDigit(c) || (c == '-' && IsDigit(Peek(s, k + 1))) then
      ReadNumber(h, s, k)
    else if c == '"' then
      ReadString(s, k)
    else if c == '@' then
      Ok(Parsed(Unit, s, SkipWhitespace(s, k + 1)))
    else if IsSymbol(c) then
      var e := ScanWhile(s, k, SymbolChars);
      Ok(Parsed(Atom(s[k..e]), s, SkipWhitespace(s, e)))
    else
      Fail(Malformed)
  }

  /** A number literal: its digits and dots are scanned and converted. */
  function ReadNumber(h: Host, s: string, k: nat): (r: Res<Parsed>)
    requires k < |s| && (IsDigit(s[k]) || (s[k] == '-' && IsDigit(Peek(s, k + 1))))
    ensures r.Ok? ==> r.value.text == s && k < r.value.pos <= |s|
  {
    var negate := s[k] == '-';
    var start := if negate then k + 1 else k;
    var end := ScanWhile(s, start, NumeralChars);
    var v :- Number(h, LiteralText(s, start, end), negate);
    Ok(Parsed(v, s, SkipWhitespace(s, end)))
  }

  /** A string literal: scanned to its closing quote, then unescaped. */
  function ReadString(s: string, k: nat): (r: Res<Parsed>)
    requires k < |s| && s[k] == '"'
    ensures r.Ok? ==> r.value.text == s && k < r.value.pos <= |s|
  {
    var n :- ScanString(s, k, 1);
    Ok(StringLiteral(s, k, n))
  }

  /** The string literal opening at `k` and closing at `k + n`: its unescaped text,
      and reading continues past the closing quote and the blanks after it. */
  function StringLiteral(s: string, k: nat, n: nat): (r: Parsed)
    requires 1 <= n && k + n < |s|
    ensures r.text == s && k < r.pos <= |s|
  {
    Parsed(Str(Unescape(s[k + 1..k + n])), s, SkipWhitespace(s, k + n + 1))
  }

  /** The items of a list, read one form at a time until a `)` is next; running
      into the end of the text makes the next form malformed. */
  function ParseItems(h: Host, s: string, k: nat): (r: Res<ParsedSeq>)
    requires 1 <= k <= |s|
    ensures r.Ok? ==> k <= r.value.pos < |r.value.text| && r.value.text[r.value.pos] == ')'
    ensures r.Ok? ==> |r.value.text| - r.value.pos <= |s| - k
    decreases |s| - k, 3
  {
    if Peek(s, k) == ')' then Ok(ParsedSeq([], s, k))
    else
      var first :- ParseExpr(h, s, k);
      var rest :- ParseItems(h, first.text, first.pos);
      Ok(ParsedSeq([first.value] + rest.values, rest.text, rest.pos))
  }

  /** The loop of `parse(s)`: read forms while the last read moved the index and the
      index is still inside the text; stopping short of the end is malformed. */
  function ParseLoop(h: Host, s: string, i: nat, last: int, acc: seq<Value>): (r: Res<seq<Value>>)
    requires i <= |s|
    ensures r.Ok? ==> |r.value| >= |acc| && r.value[..|acc|] == acc
    ensures r.Ok? && i < |s| && last != i ==> |r.value| > |acc|
    decreases |s| - i
  {
    if last != i && i < |s| then
      var r :- ParseExpr(h, s, i);
      ParseLoop(h, r.text, r.pos, i, acc + [r.value])
    else if i < |s| then Fail(Malformed)
    else Ok(acc)
  }

  /** `parse(s)`: every top-level form of a program text. */
  function ParseProgram(h: Host, s: string): (r: Res<seq<Value>>)
    ensures r.Ok? && |s| > 0 ==> |r.value| > 0
    ensures |s| == 0 ==> r == Ok([])
  {
    ParseLoop(h, s, 0, -1, [])
  }
}
