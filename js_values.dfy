/** The small part of JavaScript's value semantics that the request guards depend on:
    truthiness, `Number(...)` coercion, `parseInt`, and express-validator's `toInt`/`isInt`. */
module JsValues {
  import opened Common

  /** A JavaScript number as the guards see it: an integer, a finite non-integer
      (kept by its floor, which decides every comparison with an integer), an infinity
      (negative when `neg`), or NaN. */
  datatype Num = Int(v: int) | Frac(floor: int) | Inf(neg: bool) | NaN

  /** A JSON request value (arrays and objects are not modelled). */
  datatype JsValue = Undefined | Null | Bool(b: bool) | Number(n: Num) | Str(s: string)

  predicate Truthy(v: JsValue) {
    match v
    case Undefined => false
    case Null => false
    case Bool(b) => b
    case Number(n) => n != NaN && n != Int(0)
    case Str(s) => s != ""
  }

  /** `n < c` for an integer `c`; a comparison with NaN is false. */
  predicate Below(n: Num, c: int) {
    match n
    case Int(v) => v < c
    case Frac(f) => f < c
    case Inf(neg) => neg
    case NaN => false
  }

  /** `n > c` for an integer `c`; a comparison with NaN is false. */
  predicate Above(n: Num, c: int) {
    match n
    case Int(v) => v > c
    case Frac(f) => f >= c
    case Inf(neg) => !neg
    case NaN => false
  }

  predicate IsDigit(c: char) { '0' <= c <= '9' }

  function DigitValue(c: char): int requires IsDigit(c) { c as int - '0' as int }

  predicate AllDigits(s: string) { forall i :: 0 <= i < |s| ==> IsDigit(s[i]) }

  /** The value of a string of decimal digits. */
  function DigitsValue(s: string): (n: nat)
    requires AllDigits(s)
  {
    if s == [] then 0 else DigitsValue(s[..|s| - 1]) * 10 + DigitValue(s[|s| - 1])
  }

  /** The length of the longest prefix of decimal digits. */
  function LeadingDigits(s: string): (k: nat)
    ensures k <= |s| && AllDigits(s[..k])
    ensures k < |s| ==> !IsDigit(s[k])
  {
    if s != [] && IsDigit(s[0]) then
      var k := 1 + LeadingDigits(s[1..]);
      assert s[..k] == [s[0]] + s[1..][..k - 1];
      k
    else 0
  }

  /** The decimal spelling of a natural number, as `String(n)` and template literals produce it. */
  function NatToString(n: nat): (s: string)
    ensures s != [] && AllDigits(s)
  {
    if n < 10 then [('0' as int + n) as char]
    else NatToString(n / 10) + [('0' as int + n % 10) as char]
  }

  lemma {:induction false} NatToStringValue(n: nat)
    ensures DigitsValue(NatToString(n)) == n
  {
    var s := NatToString(n);
    if n >= 10 {
      NatToStringValue(n / 10);
      assert s[..|s| - 1] == NatToString(n / 10);
    } else {
      assert s[..0] == [];
    }
  }

  predicate IsHexDigit(c: char) { IsDigit(c) || 'a' <= c <= 'f' || 'A' <= c <= 'F' }

  function HexDigitValue(c: char): int requires IsHexDigit(c) {
    if IsDigit(c) then DigitValue(c)
    else if 'a' <= c <= 'f' then c as int - 'a' as int + 10
    else c as int - 'A' as int + 10
  }

  function LeadingHexDigits(s: string): (k: nat)
    ensures k <= |s| && forall i :: 0 <= i < k ==> IsHexDigit(s[i])
  {
    if s != [] && IsHexDigit(s[0]) then 1 + LeadingHexDigits(s[1..]) else 0
  }

  /** A digit of base `radix` (at most 16), in either case. */
  predicate IsRadixDigit(c: char, radix: nat) { IsHexDigit(c) && HexDigitValue(c) < radix }

  predicate AllRadixDigits(s: string, radix: nat) { forall i :: 0 <= i < |s| ==> IsRadixDigit(s[i], radix) }

  /** The value of a string of base-`radix` digits. */
  function RadixValue(s: string, radix: nat): nat
    requires AllRadixDigits(s, radix)
  {
    if s == [] then 0 else RadixValue(s[..|s| - 1], radix) * radix + HexDigitValue(s[|s| - 1])
  }

  /** The sign of a numeric literal and the text after it. */
  function SplitSign(t: string): (bool, string) {
    if t != [] && (t[0] == '-' || t[0] == '+') then (t[0] == '-', t[1..]) else (false, t)
  }

  function Negate(neg: bool, n: int): int { if neg then -n else n }

  /** `parseInt(s, 10)`: leading white space, an optional sign, then the longest digit prefix;
      NaN (`None`) when there is no digit. */
  function ParseInt10(s: string): Option<int> {
    var (neg, rest) := SplitSign(TrimStart(s));
    var k := LeadingDigits(rest);
    if k == 0 then None else Some(Negate(neg, DigitsValue(rest[..k])))
  }

  /** `parseInt(s)` with no radix: as `ParseInt10`, except that a `0x`/`0X` prefix reads hexadecimal. */
  function ParseIntAuto(s: string): Option<int> {
    var (neg, rest) := SplitSign(TrimStart(s));
    if |rest| >= 2 && rest[0] == '0' && (rest[1] == 'x' || rest[1] == 'X') then
      var hex := rest[2..];
      var k := LeadingHexDigits(hex);
      if k == 0 then None else Some(Negate(neg, RadixValue(hex[..k], 16)))
    else
      ParseInt10(s)
  }

  predicate AllZeros(s: string) { forall i :: 0 <= i < |s| ==> s[i] == '0' }

  function Pow10(n: nat): (p: nat)
    ensures p >= 1
  {
    if n == 0 then 1 else 10 * Pow10(n - 1)
  }

  /** The number `n / d` for a positive `d`: an integer when `d` divides `n`, else its floor
      (Dafny's `/` by a positive divisor rounds down). */
  function Quotient(n: int, d: nat): Num
    requires d > 0
  {
    if n % d == 0 then Int(n / d) else Frac(n / d)
  }

  /** The number `n * 10^e`. */
  function Scaled(n: int, e: int): Num {
    if e >= 0 then Int(n * Pow10(e)) else Quotient(n, Pow10(-e))
  }

  /** The exponent part of a decimal literal: nothing (exponent 0), or `e`/`E`, an
      optional sign and one or more digits; `None` when the text is anything else. */
  function ExponentPart(r: string): Option<int> {
    if r == [] then Some(0)
    else if r[0] != 'e' && r[0] != 'E' then None
    else
      var (neg, ds) := SplitSign(r[1..]);
      if ds != [] && AllDigits(ds) then Some(Negate(neg, DigitsValue(ds))) else None
  }

  /** The unsigned part of a decimal numeric string: digits, optionally `.` and more digits,
      with at least one digit in all, then an optional exponent part. */
  function UnsignedDecimal(b: string, neg: bool): Num {
    var k := LeadingDigits(b);
    var point := k < |b| && b[k] == '.';
    var f := if point then b[k + 1..] else [];
    var m := LeadingDigits(f);
    var rest := if point then f[m..] else b[k..];
    if k + m == 0 then NaN
    else match ExponentPart(rest)
      case None => NaN
      case Some(e) => Scaled(Negate(neg, DigitsValue(b[..k] + f[..m])), e - m)
  }

  /** The radix a `0x`/`0X`, `0o`/`0O` or `0b`/`0B` prefix names; 0 for any other pair. */
  function PrefixRadix(p: char): nat {
    if p == 'x' || p == 'X' then 16 else if p == 'o' || p == 'O' then 8 else if p == 'b' || p == 'B' then 2 else 0
  }

  /** An unsigned hexadecimal, octal or binary literal, which `Number` reads without a sign. */
  function NonDecimal(t: string): Option<nat> {
    if |t| >= 3 && t[0] == '0' && PrefixRadix(t[1]) != 0 && AllRadixDigits(t[2..], PrefixRadix(t[1])) then
      Some(RadixValue(t[2..], PrefixRadix(t[1])))
    else None
  }

  /** `Number(s)` for a string: surrounding white space is ignored and the empty string is 0;
      otherwise the text is an unsigned `0x`/`0o`/`0b` literal, or a signed `Infinity`, or a
      signed decimal literal, and anything else is NaN. */
  function StringToNumber(s: string): Num {
    var t := Trim(s);
    if t == [] then Int(0)
    else if NonDecimal(t).Some? then Int(NonDecimal(t).value)
    else
      var (neg, body) := SplitSign(t);
      if body == "Infinity" then Inf(neg) else UnsignedDecimal(body, neg)
  }

  /** `Number(v)` (also the coercion behind `<`, `>` and `isNaN`). */
  function ToNumber(v: JsValue): Num {
    match v
    case Undefined => NaN
    case Null => Int(0)
    case Bool(b) => Int(if b then 1 else 0)
    case Number(n) => n
    case Str(s) => StringToNumber(s)
  }

  /** `parseInt` and `Number` both read back the spelling of a natural number. */
  lemma {:induction false} NatToStringParses(n: nat)
    ensures ParseInt10(NatToString(n)) == Some(n)
    ensures StringToNumber(NatToString(n)) == Int(n)
  {
    var s := NatToString(n);
    assert !IsJsSpace(s[0]) && !IsJsSpace(s[|s| - 1]);
    assert TrimStart(s) == s;
    assert TrimEnd(s) == s;
    assert Trim(s) == s;
    assert SplitSign(s) == (false, s);
    LeadingDigitsAll(s);
    assert s[..|s|] == s;
    NatToStringValue(n);
    DigitsNumber(s);
  }

  /** A string of decimal digits (with an optional sign) is read by `Number` as its value. */
  lemma DigitsNumber(t: string)
    requires SplitSign(t).1 != [] && AllDigits(SplitSign(t).1)
    ensures StringToNumber(t) == Int(Negate(SplitSign(t).0, DigitsValue(SplitSign(t).1)))
  {
    var (neg, b) := SplitSign(t);
    assert !IsJsSpace(t[|t| - 1]) by { assert t[|t| - 1] == b[|b| - 1]; }
    assert !IsJsSpace(t[0]);
    TrimBare(t);
    assert NonDecimal(t).None? by {
      if |t| >= 3 && t[0] == '0' { assert b == t && IsDigit(t[1]); }
    }
    DecimalNumber(t);
    DigitsDecimal(b, neg);
  }

  /** A trimmed string that is no radix literal and no `Infinity` is read as a signed decimal. */
  lemma DecimalNumber(t: string)
    requires t != [] && Trim(t) == t && NonDecimal(t).None? && SplitSign(t).1 != [] && IsDigit(SplitSign(t).1[0])
    ensures StringToNumber(t) == UnsignedDecimal(SplitSign(t).1, SplitSign(t).0)
  {
    assert SplitSign(t).1 != "Infinity";
  }

  /** Digits alone are an integer literal. */
  lemma DigitsDecimal(b: string, neg: bool)
    requires b != [] && AllDigits(b)
    ensures UnsignedDecimal(b, neg) == Int(Negate(neg, DigitsValue(b)))
  {
    LeadingDigitsAll(b);
    assert b[..|b|] + [] == b;
    assert b[|b|..] == [];
  }

  /** `Quotient(n, d)` is `n / d` exactly, or the integer just below it. */
  lemma QuotientFloor(n: int, d: nat)
    requires d > 0
    ensures Quotient(n, d).Int? ==> Quotient(n, d).v * d == n
    ensures Quotient(n, d).Frac? ==> Quotient(n, d).floor * d < n < (Quotient(n, d).floor + 1) * d
    ensures Quotient(n, d).Int? || Quotient(n, d).Frac?
  {
  }

  /** A decimal literal with an exponent reads as the mantissa times that power of ten:
      `Number("12e3")` is 12000. */
  lemma ExponentNumber(n: nat, e: nat)
    ensures StringToNumber(NatToString(n) + "e" + NatToString(e)) == Int(n * Pow10(e))
  {
    NatToStringValue(n);
    NatToStringValue(e);
    ExponentLiteral(NatToString(n), "e", NatToString(e), false, n, e);
  }

  /** A negative exponent divides: `Number("12E-3")` is 12 / 1000, a fraction. */
  lemma NegativeExponentNumber(n: nat, e: nat)
    ensures StringToNumber(NatToString(n) + "E-" + NatToString(e)) == Quotient(n, Pow10(e))
  {
    NatToStringValue(n);
    NatToStringValue(e);
    ExponentLiteral(NatToString(n), "E-", NatToString(e), true, n, e);
    ScaledDown(n, e);
  }

  lemma ScaledDown(n: int, e: nat)
    ensures Scaled(n, -(e as int)) == Quotient(n, Pow10(e))
  {
    if e == 0 {
      assert Pow10(e) == 1;
      assert n % 1 == 0 && n / 1 == n;
    }
  }

  /** One spelling of `ExponentNumber`: `a`, then the exponent marker `x`, then `c`. */
  lemma ExponentLiteral(a: string, x: string, c: string, neg: bool, n: nat, e: nat)
    requires a != [] && AllDigits(a) && DigitsValue(a) == n
    requires c != [] && AllDigits(c) && DigitsValue(c) == e
    requires x == (if neg then "E-" else "e")
    ensures StringToNumber(a + x + c) == Scaled(n, Negate(neg, e))
  {
    var t := a + x + c;
    assert t[0] == a[0] && t[|t| - 1] == c[|c| - 1];
    TrimBare(t);
    assert NonDecimal(t).None? by {
      if |t| >= 3 && t[0] == '0' { assert t[1] == (if |a| >= 2 then a[1] else x[0]); }
    }
    assert SplitSign(t) == (false, t);
    DecimalNumber(t);
    ExponentDecimal(a, x, c, neg, n, e);
  }

  lemma ExponentDecimal(a: string, x: string, c: string, neg: bool, n: nat, e: nat)
    requires a != [] && AllDigits(a) && DigitsValue(a) == n
    requires c != [] && AllDigits(c) && DigitsValue(c) == e
    requires x == (if neg then "E-" else "e")
    ensures UnsignedDecimal(a + x + c, false) == Scaled(n, Negate(neg, e))
  {
    var t := a + x + c;
    assert t[..|a|] == a;
    LeadingDigitsAt(t, |a|);
    assert t[|a|] == x[0];
    assert t[|a|..] == x + c;
    assert ExponentPart(x + c) == Some(Negate(neg, e)) by {
      assert (x + c)[1..] == (if neg then "-" + c else c);
      assert SplitSign((x + c)[1..]) == (neg, c);
    }
    assert a + [] == a;
  }

  /** `Number` reads an unsigned `0x`, `0o` or `0b` literal in its radix. */
  lemma RadixNumber(p: char, s: string)
    requires PrefixRadix(p) != 0 && s != [] && AllRadixDigits(s, PrefixRadix(p))
    ensures StringToNumber(['0', p] + s) == Int(RadixValue(s, PrefixRadix(p)))
  {
    var t := ['0', p] + s;
    assert t[|t| - 1] == s[|s| - 1];
    assert t[2..] == s;
    TrimBare(t);
  }

  /** ... and refuses one with a sign, which is no decimal literal either. */
  lemma SignedRadixNumber(p: char, s: string)
    requires PrefixRadix(p) != 0 && s != [] && AllRadixDigits(s, PrefixRadix(p))
    ensures StringToNumber(['-', '0', p] + s) == NaN
    ensures StringToNumber(['+', '0', p] + s) == NaN
  {
    assert IsRadixDigit(s[|s| - 1], PrefixRadix(p));
    SignedRadixLiteral('-', p, s);
    SignedRadixLiteral('+', p, s);
  }

  lemma SignedRadixLiteral(sign: char, p: char, s: string)
    requires PrefixRadix(p) != 0 && s != [] && !IsJsSpace(s[|s| - 1]) && (sign == '-' || sign == '+')
    ensures StringToNumber([sign, '0', p] + s) == NaN
  {
    var u := [sign, '0', p] + s;
    assert u[|u| - 1] == s[|s| - 1] && u[1] == '0' && u[2] == p;
    SignedLetterNumber(u);
  }

  /** A sign, a digit, then a letter that does not continue a decimal literal: NaN. */
  lemma SignedLetterNumber(u: string)
    requires |u| >= 3 && (u[0] == '-' || u[0] == '+') && IsDigit(u[1]) && !IsJsSpace(u[|u| - 1])
    requires !IsDigit(u[2]) && u[2] != '.' && u[2] != 'e' && u[2] != 'E'
    ensures StringToNumber(u) == NaN
  {
    SignedDecimalNumber(u);
    LetterAfterDigit(u[1..], u[0] == '-');
  }

  /** A sign, then a digit, is read as a signed decimal literal. */
  lemma SignedDecimalNumber(u: string)
    requires |u| >= 2 && (u[0] == '-' || u[0] == '+') && IsDigit(u[1]) && !IsJsSpace(u[|u| - 1])
    ensures StringToNumber(u) == UnsignedDecimal(u[1..], u[0] == '-')
  {
    TrimBare(u);
    assert SplitSign(u) == (u[0] == '-', u[1..]);
    DecimalNumber(u);
  }

  /** A digit followed by a letter other than an exponent marker is no decimal literal. */
  lemma LetterAfterDigit(t: string, neg: bool)
    requires |t| >= 2 && IsDigit(t[0]) && !IsDigit(t[1]) && t[1] != '.' && t[1] != 'e' && t[1] != 'E'
    ensures UnsignedDecimal(t, neg) == NaN
  {
    LeadingDigitsAt(t, 1);
    assert t[1..][0] == t[1];
  }

  /** `Number` reads `Infinity` with either sign or none; the sign decides which infinity. */
  lemma InfinityNumber(sign: string)
    requires sign == "" || sign == "+" || sign == "-"
    ensures StringToNumber(sign + "Infinity") == Inf(sign == "-")
  {
    var t := sign + "Infinity";
    assert t[|t| - 1] == 'y';
    TrimBare(t);
    assert SplitSign(t) == (sign == "-", "Infinity");
    assert NonDecimal(t).None?;
  }

  /** `LeadingDigits` is the position of the first non-digit. */
  lemma {:induction false} LeadingDigitsAt(s: string, k: nat)
    requires k <= |s| && AllDigits(s[..k]) && (k < |s| ==> !IsDigit(s[k]))
    ensures LeadingDigits(s) == k
  {
    if k > 0 {
      assert IsDigit(s[..k][0]);
      assert s[1..][..k - 1] == s[1..k];
      LeadingDigitsAt(s[1..], k - 1);
    }
  }

  lemma {:induction false} LeadingDigitsAll(s: string)
    requires AllDigits(s)
    ensures LeadingDigits(s) == |s|
  {
    if s != [] { LeadingDigitsAll(s[1..]); }
  }

  /** express-validator's `toInt()`: the value is turned into a string and read with `parseInt(_, 10)`.
      A non-integer number is written with a decimal point, so it is truncated towards zero. */
  function ValidatorToInt(v: JsValue): Option<int> {
    match v
    case Str(s) => ParseInt10(s)
    case Number(Int(n)) => Some(n)
    case Number(Frac(f)) => Some(if f >= 0 then f else f + 1)
    case _ => None
  }

  /** validator.js `isInt` on a string: an optional sign and one or more digits, nothing else. */
  function IntStringValue(s: string): Option<int> {
    var (neg, rest) := SplitSign(s);
    if rest != [] && AllDigits(rest) then Some(Negate(neg, DigitsValue(rest))) else None
  }

  /** `isInt({min: lo, max: hi})` on a request value. */
  predicate ValidatorIsIntIn(v: JsValue, lo: int, hi: int) {
    match v
    case Str(s) => IntStringValue(s).Some? && lo <= IntStringValue(s).value <= hi
    case Number(Int(n)) => lo <= n <= hi
    case _ => false
  }
  /** The decimal spelling of an integer, as `String(n)` produces it. */
  function IntToString(n: int): (s: string)
    ensures s != []
  {
    if n < 0 then "-" + NatToString(-n) else NatToString(n)
  }

  /** express-validator's `toString`, which every standard validator applies first: `null`,
      `undefined` and NaN become the empty string, everything else `String(value)`. (The
      spelling of a number with a fractional part is not modelled; it reads as empty.) */
  function TextOf(v: JsValue): string {
    match v
    case Str(s) => s
    case Bool(b) => if b then "true" else "false"
    case Number(Int(n)) => IntToString(n)
    case Number(Inf(neg)) => if neg then "-Infinity" else "Infinity"
    case _ => ""
  }

  /** A string that starts and ends with something other than white space is its own trim. */
  lemma TrimBare(s: string)
    requires s != [] && !IsJsSpace(s[0]) && !IsJsSpace(s[|s| - 1])
    ensures Trim(s) == s
  {
    assert TrimStart(s) == s;
    assert TrimEnd(s) == s;
  }

  /** A string validator.js calls an integer is read by `Number` as that integer. */
  lemma IntStringNumber(s: string)
    requires IntStringValue(s).Some?
    ensures StringToNumber(s) == Int(IntStringValue(s).value)
  {
    DigitsNumber(s);
  }
}
