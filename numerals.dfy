/**
 * Python numbers as the core sees them: decimal text in and out (`int(s)`, `str(n)`,
 * `f"{n:02d}"`), and the int/float/bool values a YAML file may give a requirement.
 */
module Numerals {
  import opened Wrappers
  import opened Text

  predicate AllDigits(s: string) { forall i :: 0 <= i < |s| ==> IsDigit(s[i]) }

  function DigitsValue(s: string): nat
    requires AllDigits(s)
  {
    if s == [] then 0 else DigitsValue(s[..|s| - 1]) * 10 + (s[|s| - 1] as int - '0' as int)
  }

  function DigitChar(d: nat): (c: char)
    requires d < 10
    ensures IsDigit(c) && c as int - '0' as int == d
  {
    ('0' as int + d) as char
  }

  /** `str(n)` for a non-negative integer: its decimal digits, without leading zeros. */
  function NatStr(n: nat): (r: string)
    ensures |r| >= 1 && AllDigits(r) && DigitsValue(r) == n
    ensures r[0] == '0' ==> n == 0
  {
    if n < 10 then [DigitChar(n)]
    else
      var r := NatStr(n / 10) + [DigitChar(n % 10)];
      assert r[..|r| - 1] == NatStr(n / 10);
      r
  }

  /** `str(i)` for any integer. */
  function IntStr(i: int): (r: string)
    ensures |r| >= 1 && !IsSpace(r[0]) && !IsSpace(r[|r| - 1])
    ensures forall k :: 0 <= k < |r| ==> IsDigit(r[k]) || (k == 0 && r[k] == '-')
  {
    if i < 0 then "-" + NatStr(-i) else NatStr(i)
  }

  /** `f"{n:02d}"`: at least two digits, padded with a zero on the left. */
  function Pad2(n: nat): (r: string)
    ensures |r| >= 2 && AllDigits(r) && DigitsValue(r) == n
  {
    var s := NatStr(n);
    if |s| < 2 then
      var r := ['0'] + s;
      assert r[..1] == ['0'];
      r
    else s
  }

  /** The body of a base-10 literal accepted by `int()`: digits, single underscores between digits. */
  predicate IsDecimalBody(b: string)
  {
    |b| > 0 && IsDigit(b[0]) && forall i :: 0 <= i < |b| ==> DigitOrJoin(b, i)
  }

  predicate DigitOrJoin(b: string, i: nat)
    requires i < |b|
  {
    IsDigit(b[i]) || (b[i] == '_' && i + 1 < |b| && IsDigit(b[i + 1]))
  }

  function NoUnderscores(b: string): (r: string)
    requires forall i :: 0 <= i < |b| ==> IsDigit(b[i]) || b[i] == '_'
    ensures AllDigits(r)
    ensures AllDigits(b) ==> r == b
  {
    if b == [] then [] else (if b[0] == '_' then [] else [b[0]]) + NoUnderscores(b[1..])
  }

  /** The ValueError text of `int()`: the repr of its argument, cut to 200 characters. */
  function IntError(s: string): (r: string)
    ensures StartsWith(r, "invalid literal for int() with base 10: ")
    ensures |r| <= |"invalid literal for int() with base 10: "| + 200
  {
    "invalid literal for int() with base 10: " + Cut(Repr(s), 200)
  }

  /** `int("x y")` reports `invalid literal for int() with base 10: 'x y'`. */
  lemma IntErrorPlain(s: string)
    requires |s| <= 198 && forall i :: 0 <= i < |s| ==> Verbatim(s[i], '\'') && s[i] != '"'
    ensures IntError(s) == "invalid literal for int() with base 10: '" + s + "'"
  {
    ReprPlain(s);
  }

  /** `int("8'")` reports the text between double quotes: `invalid literal ... : "8'"`. */
  lemma IntErrorApostrophe(s: string)
    requires |s| <= 198 && HasChar(s, '\'') && forall i :: 0 <= i < |s| ==> Verbatim(s[i], '"')
    ensures IntError(s) == "invalid literal for int() with base 10: \"" + s + "\""
  {
    ReprApostrophe(s);
  }

  /** CPython's default `sys.get_int_max_str_digits()`: the most digits `int()` reads or `str()` writes. */
  const MaxStrDigits: nat := 4300

  /** What `int()` reads after the surrounding whitespace and the optional sign. */
  function LiteralBody(s: string): string
  {
    var t := Strip(s);
    if t != [] && (t[0] == '-' || t[0] == '+') then t[1..] else t
  }

  /** A text `int()` accepts, the digit limit aside. */
  predicate IsIntLiteral(s: string)
  {
    IsDecimalBody(LiteralBody(s))
  }

  /** The digits of a decimal body, its underscores dropped. */
  function BodyDigits(b: string): (r: string)
    requires IsDecimalBody(b)
    ensures AllDigits(r)
    ensures AllDigits(b) ==> r == b
  {
    assert forall i :: 0 <= i < |b| ==> IsDigit(b[i]) || b[i] == '_' by {
      forall i | 0 <= i < |b| ensures IsDigit(b[i]) || b[i] == '_' { assert DigitOrJoin(b, i); }
    }
    NoUnderscores(b)
  }

  /** How many digits CPython counts in a literal: underscores are not digits. */
  function LiteralDigits(s: string): nat
    requires IsIntLiteral(s)
  {
    |BodyDigits(LiteralBody(s))|
  }

  /** The ValueError text of a conversion with too many digits. */
  function LimitError(digits: nat): string
  {
    LimitHead + NatStr(digits) + LimitTail
  }

  // Each text is written in two halves, which lets the verifier read its characters.
  const LimitHead := "Exceeds the limit (4300 digits) for " + "integer string conversion: value has "
  const LimitTail := " digits; use sys.set_int_max_str_digits()" + " to increase the limit"

  /**
   * `int(s)`: surrounding whitespace is ignored, then an optional sign and a decimal body.
   * Anything else raises ValueError with the "invalid literal" message; a literal of more than
   * 4300 digits raises ValueError with the limit message.
   */
  function ParseInt(s: string): (r: Result<int>)
    ensures r.Ok? <==> IsIntLiteral(s) && LiteralDigits(s) <= MaxStrDigits
    ensures r.Err? && !IsIntLiteral(s) ==> r.msg == IntError(s)
    ensures r.Err? && IsIntLiteral(s) ==> r.msg == LimitError(LiteralDigits(s))
  {
    var t := Strip(s);
    var body := LiteralBody(s);
    if !IsDecimalBody(body) then Err(IntError(s))
    else if |BodyDigits(body)| > MaxStrDigits then Err(LimitError(|BodyDigits(body)|))
    else
      var v: int := DigitsValue(BodyDigits(body));
      Ok(if t[0] == '-' then -v else v)
  }

  lemma IntErrorMentionsLiteral(s: string)
    ensures Contains(IntError(s), "invalid literal")
  {
    assert StartsWith(IntError(s), "invalid literal");
  }

  /** The limit message never says "invalid literal", whatever the digit count. */
  lemma LimitErrorFree(digits: nat)
    ensures !Contains(LimitError(digits), "invalid literal")
  {
    LimitErrorFreeOf(digits, "invalid literal");
  }

  /** A text `w` of 15 or more characters, none of them a digit, `m`, `o`, `s`, `h` or `y`. */
  predicate Unlike(w: string)
  {
    |w| >= 15 && !HasChar(w, 'm') && !HasChar(w, 'o') && !HasChar(w, 's') && !HasChar(w, 'h') &&
    !HasChar(w, 'y') && forall k :: 0 <= k < |w| ==> !IsDigit(w[k])
  }

  lemma LimitErrorFreeOf(digits: nat, w: string)
    requires Unlike(w)
    ensures !Contains(LimitError(digits), w)
  {
    LimitHeadFree(w);
    LimitTailFree(w);
    var d := NatStr(digits);
    forall k | 0 <= k < |d| ensures !HasChar(w, d[k]) {
      assert IsDigit(d[k]);
    }
    RunSplitFree(LimitHead, d, LimitTail, w);
  }

  lemma LimitHeadFree(w: string)
    requires Unlike(w)
    ensures !Contains(LimitHead, w)
  {
    var s := LimitHead;
    assert |s| == 73 && s[14] == 'm' && s[29] == 's' && s[44] == 's' && s[59] == 'o';
    FourCutsFree(s, w, 14, 29, 44, 59);
  }

  lemma LimitTailFree(w: string)
    requires Unlike(w)
    ensures !Contains(LimitTail, w)
  {
    var s := LimitTail;
    assert |s| == 63 && s[14] == 'y' && s[29] == 's' && s[43] == 'o' && s[55] == 'h';
    FourCutsFree(s, w, 14, 29, 43, 55);
  }

  /** Whether `str(i)` stays within the digit limit. */
  predicate WithinStrLimit(i: int)
  {
    |NatStr(if i < 0 then -i else i)| <= MaxStrDigits
  }

  /** `int(str(i)) == i` wherever `str(i)` has at most 4300 digits. */
  lemma ParseIntStr(i: int)
    requires WithinStrLimit(i)
    ensures ParseInt(IntStr(i)) == Ok(i)
  {
    var n := NatStr(if i < 0 then -i else i);
    IntStrLiteral(i);
    PlainDigitsLiteral(n);
  }

  /** `str(i)` is its sign, if negative, then the digits of its magnitude, with no space around. */
  lemma IntStrLiteral(i: int)
    ensures Strip(IntStr(i)) == IntStr(i)
    ensures LiteralBody(IntStr(i)) == NatStr(if i < 0 then -i else i)
    ensures IntStr(i)[0] == '-' <==> i < 0
  {
    var s := IntStr(i);
    StripPlain(s);
    if i < 0 {
      assert s[1..] == NatStr(-i);
    }
  }

  /** A literal of more than 4300 digits is refused with the limit message. */
  lemma ParseIntTooLong(d: string)
    requires AllDigits(d) && |d| > MaxStrDigits
    ensures ParseInt(d) == Err(LimitError(|d|))
  {
    PlainDigitsLiteral(d);
  }

  /** A run of digits is a literal, and each of its characters counts as a digit. */
  lemma PlainDigitsLiteral(d: string)
    requires AllDigits(d) && d != []
    ensures LiteralBody(d) == d && IsDecimalBody(d) && BodyDigits(d) == d
    ensures IsIntLiteral(d) && LiteralDigits(d) == |d|
  {
    StripPlain(d);
    assert LiteralBody(d) == d;
    assert IsDecimalBody(d) by {
      forall i | 0 <= i < |d| ensures DigitOrJoin(d, i) { }
    }
  }

  lemma ParseIntEmpty()
    ensures ParseInt("").Err?
  {
  }

  /** A number as Python holds it. A float keeps the text `str()` gives for it. */
  datatype Num = Int(i: int) | Float(x: real, shown: string) | Bool(b: bool)

  /** The numeric value; `True == 1` and `False == 0` in Python. */
  function Value(n: Num): real
  {
    match n
    case Int(i) => i as real
    case Float(x, _) => x
    case Bool(b) => if b then 1.0 else 0.0
  }

  /** `str(n)` / `f"{n}"` */
  function Show(n: Num): string
  {
    match n
    case Int(i) => IntStr(i)
    case Float(_, shown) => shown
    case Bool(b) => if b then "True" else "False"
  }
}
