/** The two renderings of a value: `debug`, which writes a value back as source
    text (strings quoted, inner quotes escaped), and `display`, the user-facing form
    `print` uses, which differs only in writing a string's text bare. */
module Render {
  import opened Values

  function DigitChar(d: nat): char
    requires d < 10
  {
    ('0' as int + d) as char
  }

  /** The decimal digits of a natural number, most significant first. */
  function ShowNat(n: nat): (r: string)
    ensures |r| > 0
    ensures forall k | 0 <= k < |r| :: '0' <= r[k] <= '9'
  {
    if n < 10 then [DigitChar(n)] else ShowNat(n / 10) + [DigitChar(n % 10)]
  }

  /** `ostringstream << n` for an integer: a minus sign for negatives, then digits. */
  function ShowInt(n: int): string {
    if n < 0 then "-" + ShowNat(-n) else ShowNat(n)
  }

  /** The escaping `debug` applies inside a string literal: only `"` becomes `\"`. */
  function EscapeQuotes(t: string): string {
    if |t| == 0 then ""
    else (if t[0] == '"' then "\\\"" else [t[0]]) + EscapeQuotes(t[1..])
  }

  /** `Value::debug`. A lambda is written as `(lambda <params> <body>)`; a builtin
      as its name and the host address of its native function. */
  function Debug(h: Host, v: Value): (r: string)
    decreases v
  {
    match v
    case Quote(x) => "'" + Debug(h, x)
    case Atom(a) => a
    case Int(n) => ShowInt(n)
    case Float(f) => h.show(f)
    case Str(t) => "\"" + EscapeQuotes(t) + "\""
    case Lambda(ps, body, _) => "(lambda (" + DebugItems(h, ps) + ") " + Debug(h, body) + ")"
    case List(xs) => "(" + DebugItems(h, xs) + ")"
    case Builtin(name, op) => "<" + name + " at " + ShowInt(h.address(op)) + ">"
    case Unit => "@"
  }

  /** The `debug` renderings of a sequence of values, separated by single spaces. */
  function DebugItems(h: Host, xs: seq<Value>): string
    decreases xs
  {
    if |xs| == 0 then ""
    else if |xs| == 1 then Debug(h, xs[0])
    else Debug(h, xs[0]) + " " + DebugItems(h, xs[1..])
  }

  /** `Value::display`: the bare text for a string, and the `debug` rendering of
      every other value (nested strings inside a list or quote stay quoted). */
  function Display(h: Host, v: Value): string {
    if v.Str? then v.s else Debug(h, v)
  }
}
