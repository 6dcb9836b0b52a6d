/** The JavaScript values a parsed CSV cell can hold and the built-in coercions the components
    apply to them: truthiness, `String(v)`, `Number(v)`, `toLowerCase` and `includes`. */
module JsValues {
  import opened Common

  function Pow10(n: nat): (r: nat)
    ensures r >= 1
  {
    if n == 0 then 1 else 10 * Pow10(n - 1)
  }

  /** A number as written in the CSV: `digits / 10^scale`. */
  datatype Decimal = Decimal(digits: int, scale: nat)

  function Real(d: Decimal): real {
    d.digits as real / Pow10(d.scale) as real
  }

  /** A cell after type inference: text, a number, or nothing. `Null` stands for both `null`
      (an empty cell) and `undefined` (a field the row does not have); every use in the model
      treats the two alike. */
  datatype Value = Str(s: string) | Num(n: Decimal) | Null

  /** The JavaScript truthiness of a cell: the empty string, zero and nothing are falsy. */
  predicate Truthy(v: Value) {
    match v
    case Str(s) => s != ""
    case Num(d) => d.digits != 0
    case Null => false
  }

  // ---------------------------------------------------------------- String(v)

  function DigitChar(n: nat): char
    requires n < 10
  {
    "0123456789"[n]
  }

  /** The decimal digits of a natural number, without leading zeros. */
  function DigitsText(n: nat): (s: string)
    ensures |s| >= 1
  {
    if n < 10 then [DigitChar(n)] else DigitsText(n / 10) + [DigitChar(n % 10)]
  }

  /** The same number with trailing zero digits after the point removed. */
  function Normalize(d: Decimal): Decimal
    decreases d.scale
  {
    if d.scale > 0 && d.digits % 10 == 0 then Normalize(Decimal(d.digits / 10, d.scale - 1)) else d
  }

  function PadLeft(s: string, width: nat): (r: string)
    ensures |r| >= width && |r| >= |s|
    decreases width - |s|
  {
    if |s| >= width then s else PadLeft("0" + s, width)
  }

  /** `String(x)` for a number: shortest decimal text, a minus sign for negatives, no trailing
      zeros after the point and no point for whole numbers. */
  function NumberText(d: Decimal): string {
    var n := Normalize(d);
    var mag := DigitsText(if n.digits < 0 then -n.digits else n.digits);
    var body :=
      if n.scale == 0 then mag
      else
        var padded := PadLeft(mag, n.scale + 1);
        padded[..|padded| - n.scale] + "." + padded[|padded| - n.scale..];
    if n.digits < 0 then "-" + body else body
  }

  /** `String(v)`. */
  function Text(v: Value): string {
    match v
    case Str(s) => s
    case Num(d) => NumberText(d)
    case Null => "null"
  }

  // ---------------------------------------------------------------- Number(v)

  /** A JavaScript number: finite, or NaN when a text does not read as a number. */
  datatype JsNumber = Finite(x: real) | NaN

  predicate IsSpace(c: char) {
    c == ' ' || c == '\t' || c == '\n' || c == '\r' || c == '\U{B}' || c == '\U{C}'
    || c == '\U{A0}' || c == '\U{FEFF}' || c == '\U{2028}' || c == '\U{2029}'
  }

  function TrimStart(s: string): (r: string)
    ensures |r| <= |s|
  {
    if s != [] && IsSpace(s[0]) then TrimStart(s[1..]) else s
  }

  function TrimEnd(s: string): (r: string)
    ensures |r| <= |s|
  {
    if s != [] && IsSpace(s[|s| - 1]) then TrimEnd(s[..|s| - 1]) else s
  }

  predicate IsDigit(c: char) {
    '0' <= c <= '9'
  }

  predicate AllDigits(s: string) {
    forall i :: 0 <= i < |s| ==> IsDigit(s[i])
  }

  function LeadingDigits(s: string): (r: string)
    ensures |r| <= |s| && r == s[..|r|] && AllDigits(r)
  {
    if s != [] && IsDigit(s[0]) then [s[0]] + LeadingDigits(s[1..]) else []
  }

  function DigitsValue(s: string): nat
    requires AllDigits(s)
  {
    if s == [] then 0 else 10 * DigitsValue(s[..|s| - 1]) + (s[|s| - 1] as int - '0' as int)
  }

  /** `Number(s)` for a text: surrounding white space is ignored, an empty text is 0, an
      optionally signed decimal numeral (`12`, `-3.5`, `+.5`, `7.`) is its value, anything else
      is NaN. */
  function ParseNumber(s: string): Option<Decimal> {
    var t := TrimEnd(TrimStart(s));
    if t == [] then Some(Decimal(0, 0))
    else
      var negative := t[0] == '-';
      var u := if t[0] == '-' || t[0] == '+' then t[1..] else t;
      var whole := LeadingDigits(u);
      var rest := u[|whole|..];
      if rest == [] then
        if whole == [] then None
        else Some(Decimal(if negative then -(DigitsValue(whole) as int) else DigitsValue(whole), 0))
      else if rest[0] == '.' && AllDigits(rest[1..]) && |whole| + |rest| > 1 then
        var all := whole + rest[1..];
        Some(Decimal(if negative then -(DigitsValue(all) as int) else DigitsValue(all), |rest| - 1))
      else None
  }

  /** `Number(v)`. */
  function ToNumber(v: Value): JsNumber {
    match v
    case Num(d) => Finite(Real(d))
    case Str(s) => (match ParseNumber(s) case Some(d) => Finite(Real(d)) case None => NaN)
    case Null => Finite(0.0)
  }

  /** `n || 0`: NaN (and zero) become zero. */
  function OrZero(n: JsNumber): real {
    match n
    case Finite(x) => x
    case NaN => 0.0
  }

  /** `Number(v) || 0`: the hours a cell contributes; never NaN. */
  function Coerce(v: Value): real {
    OrZero(ToNumber(v))
  }

  // ---------------------------------------------------------------- text search

  function LowerChar(c: char): char {
    if 'A' <= c <= 'Z' then (c as int - 'A' as int + 'a' as int) as char else c
  }

  /** `s.toLowerCase()` on the ASCII letters. */
  function Lower(s: string): (r: string)
    ensures |r| == |s|
  {
    seq(|s|, i requires 0 <= i < |s| => LowerChar(s[i]))
  }

  /** `s.includes(t)`: `t` occurs in `s` as a contiguous piece. */
  predicate Includes(s: string, t: string)
    decreases |s|
  {
    (|t| <= |s| && s[..|t|] == t) || (s != [] && Includes(s[1..], t))
  }

  /** `t` is found in `s` starting at offset `i`. */
  predicate OccursAt(s: string, t: string, i: int) {
    0 <= i <= |s| - |t| && s[i..i + |t|] == t
  }

  /** `includes` holds exactly when some offset of `s` starts a copy of `t`. */
  lemma {:induction false} IncludesAt(s: string, t: string)
    ensures Includes(s, t) <==> exists i :: OccursAt(s, t, i)
  {
    if |t| <= |s| && s[..|t|] == t {
      assert s[0..|t|] == s[..|t|];
      assert OccursAt(s, t, 0);
    }
    if s != [] {
      IncludesAt(s[1..], t);
      if Includes(s[1..], t) {
        var i :| OccursAt(s[1..], t, i);
        assert s[i + 1..i + 1 + |t|] == t;
        assert OccursAt(s, t, i + 1);
      }
      if exists i :: OccursAt(s, t, i) {
        var i :| OccursAt(s, t, i);
        if i > 0 {
          assert s[1..][i - 1..i - 1 + |t|] == t;
          assert OccursAt(s[1..], t, i - 1);
        } else {
          assert s[..|t|] == s[0..|t|];
        }
      }
    } else if t == [] {
      assert OccursAt(s, t, 0);
    }
  }
}
