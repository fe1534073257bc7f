/** C#'s 32-bit `int` as the evaluator uses it: unchecked wrap-around for
    `+`, `-` and `*`, division and remainder that truncate toward zero, and the
    decimal parsing of `int.TryParse`. */
module CSharpInt {
  import opened Wrappers

  const Modulus: int := 0x1_0000_0000
  const MinValue: int := -0x8000_0000
  const MaxValue: int := 0x7FFF_FFFF

  type Int32 = x: int | -0x8000_0000 <= x <= 0x7FFF_FFFF

  // ---------------------------------------------------------------------------
  // Unchecked arithmetic
  // ---------------------------------------------------------------------------

  /** The value an unchecked 32-bit operation leaves behind: the one `int`
      congruent to `x` modulo 2^32. */
  function Wrap(x: int): (r: Int32)
    ensures (x - r) % Modulus == 0
    ensures MinValue <= x <= MaxValue ==> r == x
  {
    (x + 0x8000_0000) % Modulus - 0x8000_0000
  }

  /** Adding a multiple of 2^32 does not change the wrapped value. */
  lemma {:induction false} WrapShift(x: int, k: int)
    ensures Wrap(x + Modulus * k) == Wrap(x)
  {
    var a := x + 0x8000_0000;
    assert a + Modulus * k == Modulus * (a / Modulus + k) + a % Modulus;
  }

  /** Wrapping an intermediate sum does not change the final wrapped sum. */
  lemma WrapAdd(x: int, y: int)
    ensures Wrap(Wrap(x) + y) == Wrap(x + y)
  {
    var k := (x + 0x8000_0000) / Modulus;
    assert Wrap(x) == x - Modulus * k;
    assert Wrap(x) + y == (x + y) + Modulus * (-k);
    WrapShift(x + y, -k);
  }

  function Abs(x: int): nat
  {
    if x < 0 then -x else x
  }

  /** What the solver needs about `/` and `%` on a positive divisor. */
  lemma DivFacts(n: nat, d: nat)
    requires d > 0
    ensures n == d * (n / d) + n % d && 0 <= n % d < d
    ensures 0 <= n / d <= n
    ensures d >= 2 ==> 2 * (n / d) <= n
  {
    if n / d < 0 {
      MulNegative(d, n / d);
    }
    MulAtLeast(d, n / d);
  }

  lemma MulNegative(d: int, q: int)
    requires d > 0 && q < 0
    ensures d * q <= -d
  {
  }

  lemma MulAtLeast(d: int, q: int)
    requires d >= 1 && q >= 0
    ensures d * q >= q
    ensures d >= 2 ==> d * q >= 2 * q
  {
  }

  /** C#'s `/` on `int`: the quotient rounded toward zero. */
  function TruncDiv(a: int, b: int): (q: int)
    requires b != 0
    ensures Abs(q) == Abs(a) / Abs(b)
    ensures q > 0 ==> (a < 0) == (b < 0)
    ensures q < 0 ==> (a < 0) != (b < 0)
  {
    DivFacts(Abs(a), Abs(b));
    if (a < 0) == (b < 0) then Abs(a) / Abs(b) else -(Abs(a) / Abs(b))
  }

  /** C#'s `%` on `int`: the remainder of the truncating division, which
      takes the sign of the dividend. */
  function TruncRem(a: int, b: int): (r: int)
    requires b != 0
    ensures a == b * TruncDiv(a, b) + r
    ensures Abs(r) < Abs(b)
    ensures r == 0 || (r < 0) == (a < 0)
  {
    var n, d := Abs(a), Abs(b);
    DivFacts(n, d);
    if a < 0 then
      assert b * TruncDiv(a, b) == -(d * (n / d));
      -(n % d)
    else
      assert b * TruncDiv(a, b) == d * (n / d);
      n % d
  }

  /** Dividing a 32-bit value stays in range except for MinValue / -1, the one
      quotient C# cannot represent. */
  lemma TruncDivInRange(a: Int32, b: Int32)
    requires b != 0
    ensures MinValue <= TruncDiv(a, b) <= MaxValue <==> !(a == MinValue && b == -1)
  {
    DivFacts(Abs(a), Abs(b));
  }

  // ---------------------------------------------------------------------------
  // Parsing: int.TryParse with the default number style
  // ---------------------------------------------------------------------------

  /** The white space `int.TryParse` skips before and after the number. */
  predicate IsWhite(c: char)
  {
    c == ' ' || '\t' <= c <= '\r'
  }

  predicate IsDigit(c: char)
  {
    '0' <= c <= '9'
  }

  /** `s` without its leading white space. */
  function TrimStart(s: string): string
  {
    if |s| > 0 && IsWhite(s[0]) then TrimStart(s[1..]) else s
  }

  /** `s` without its trailing white space. */
  function TrimEnd(s: string): string
  {
    if |s| > 0 && IsWhite(s[|s| - 1]) then TrimEnd(s[..|s| - 1]) else s
  }

  /** TrimStart removes exactly the leading run of white space. */
  lemma {:induction false} TrimStartRemovesLeadingWhite(s: string)
    ensures var r := TrimStart(s);
            |r| <= |s| && r == s[|s| - |r|..]
            && (forall i :: 0 <= i < |s| - |r| ==> IsWhite(s[i]))
            && (r == [] || !IsWhite(r[0]))
  {
    if |s| > 0 && IsWhite(s[0]) {
      TrimStartRemovesLeadingWhite(s[1..]);
    }
  }

  /** TrimEnd removes exactly the trailing run of white space. */
  lemma {:induction false} TrimEndRemovesTrailingWhite(s: string)
    ensures var r := TrimEnd(s);
            |r| <= |s| && r == s[..|r|]
            && (forall i :: |r| <= i < |s| ==> IsWhite(s[i]))
            && (r == [] || !IsWhite(r[|r| - 1]))
  {
    if |s| > 0 && IsWhite(s[|s| - 1]) {
      TrimEndRemovesTrailingWhite(s[..|s| - 1]);
    }
  }

  function DigitValue(c: char): nat
    requires IsDigit(c)
  {
    (c as int) - ('0' as int)
  }

  /** The value of a string of decimal digits, most significant first. */
  function DecimalValue(s: string): nat
    requires forall i :: 0 <= i < |s| ==> IsDigit(s[i])
  {
    if |s| == 0 then 0 else DecimalValue(s[..|s| - 1]) * 10 + DigitValue(s[|s| - 1])
  }

  function ParseDigits(s: string): Option<nat>
  {
    if |s| > 0 && forall i :: 0 <= i < |s| ==> IsDigit(s[i]) then Some(DecimalValue(s)) else None
  }

  /** `int.TryParse(s, out n)`: surrounding white space, one optional sign,
      at least one decimal digit, and a value that fits in 32 bits. */
  function ParseInt32(s: string): Option<Int32>
  {
    var t := TrimEnd(TrimStart(s));
    var signed := |t| > 0 && (t[0] == '-' || t[0] == '+');
    match ParseDigits(if signed then t[1..] else t)
    case None => None
    case Some(v) =>
      var n: int := if signed && t[0] == '-' then -(v as int) else v;
      if MinValue <= n <= MaxValue then Some(n) else None
  }

  // ---------------------------------------------------------------------------
  // Formatting, the inverse of parsing on canonical text
  // ---------------------------------------------------------------------------

  function DigitChar(d: nat): (c: char)
    requires d < 10
    ensures IsDigit(c) && DigitValue(c) == d
  {
    ('0' as int + d) as char
  }

  function Digits(n: nat): (s: string)
    ensures |s| > 0
    ensures forall i :: 0 <= i < |s| ==> IsDigit(s[i])
  {
    if n < 10 then [DigitChar(n)] else Digits(n / 10) + [DigitChar(n % 10)]
  }

  /** Decimal text of any integer, with a leading '-' when negative. */
  function FormatInt(n: int): string
  {
    if n < 0 then "-" + Digits(-n) else Digits(n)
  }

  lemma {:induction false} DecimalValueOfDigits(n: nat)
    ensures DecimalValue(Digits(n)) == n
  {
    if n >= 10 {
      var s := Digits(n);
      assert s[..|s| - 1] == Digits(n / 10);
      DecimalValueOfDigits(n / 10);
    }
  }

  /** Parsing decimal text gives back the number when it fits in 32 bits and
      fails when it does not. */
  lemma ParseFormat(n: int)
    ensures ParseInt32(FormatInt(n)) == if MinValue <= n <= MaxValue then Some(n) else None
  {
    var s := FormatInt(n);
    var m := if n < 0 then -n else n;
    assert !IsWhite(s[0]) && !IsWhite(s[|s| - 1]);
    TrimStartRemovesLeadingWhite(s);
    TrimEndRemovesTrailingWhite(s);
    assert TrimStart(s) == s;
    assert TrimEnd(s) == s;
    DecimalValueOfDigits(m);
    if n < 0 {
      assert s[1..] == Digits(m);
    } else {
      assert s[0] != '-' && s[0] != '+';
    }
  }
}
