/**
 The pieces of JavaScript number semantics the model needs, on integers:
 `Math.floor(a / b)`, the truncating remainder operator `%`, and the
 decimal text a template literal produces for an integral number.
 */
module JsNumber {

  function Abs(x: int): nat {
    if x < 0 then -x else x
  }

  /** `Math.floor(a / b)` for integers, `b != 0`. */
  function FloorDiv(a: int, b: int): (q: int)
    requires b != 0
    ensures b > 0 ==> b * q <= a < b * q + b
    ensures b < 0 ==> b * q >= a > b * q + b
  {
    if b > 0 then a / b else (-a) / (-b)
  }

  /** `a % b`: JavaScript's remainder takes the sign of the dividend. */
  function TruncRem(a: int, b: int): (r: int)
    requires b != 0
    ensures a >= 0 ==> 0 <= r < Abs(b)
    ensures a < 0 ==> 0 - Abs(b) < r <= 0
    ensures (a - r) % Abs(b) == 0
  {
    TruncRemMultiple(a, Abs(b));
    if a >= 0 then a % Abs(b) else -((-a) % Abs(b))
  }

  lemma TruncRemMultiple(a: int, m: int)
    requires m > 0
    ensures a >= 0 ==> (a - a % m) % m == 0
    ensures a < 0 ==> (a + (-a) % m) % m == 0
  {
    if a >= 0 {
      MultipleRem(a, m);
    } else {
      var t := (-a) % m;
      MultipleRem(-a, m);
      NegatedMultipleRem(-a - t, m);
      assert a + t == -(-a - t);
    }
  }

  /** Removing the remainder leaves a multiple of the divisor. */
  lemma MultipleRem(a: int, m: int)
    requires m > 0
    ensures (a - a % m) % m == 0
  {
    assert a - a % m == m * (a / m);
    DivUnique(m * (a / m), m, a / m);
  }

  lemma NegatedMultipleRem(x: int, m: int)
    requires m > 0 && x % m == 0
    ensures (-x) % m == 0
  {
    var k := x / m;
    assert x == m * k;
    assert -x == m * (-k);
    DivUnique(-x, m, -k);
  }

  /** With a positive divisor, floor division is Dafny's division. */
  lemma FloorDivPositive(a: int, b: int)
    requires b > 0
    ensures FloorDiv(a, b) == a / b
  {
  }

  /** On a non-negative dividend the JavaScript remainder is Dafny's `%`. */
  lemma TruncRemNonNegative(a: int, b: int)
    requires a >= 0 && b > 0
    ensures TruncRem(a, b) == a % b
  {
  }

  /** Euclidean division is pinned down by its bounds. */
  lemma DivUnique(a: int, b: int, q: int)
    requires b > 0
    requires b * q <= a < b * q + b
    ensures a / b == q
    ensures a % b == a - b * q
  {
    var q' := a / b;
    assert b * q' <= a < b * q' + b;
    if q' < q {
      assert q' + 1 <= q;
      MulMonotone(b, q' + 1, q);
      assert false;
    } else if q' > q {
      assert q + 1 <= q';
      MulMonotone(b, q + 1, q');
      assert false;
    }
  }

  /** Adding `k` multiples of `b` adds `k` to the quotient and keeps the remainder. */
  lemma DivAddMultiple(a: int, b: int, k: int)
    requires b > 0
    ensures (a + b * k) / b == a / b + k
    ensures (a + b * k) % b == a % b
  {
    var q := a / b;
    assert a == b * q + a % b;
    assert b * (q + k) == b * q + b * k;
    DivUnique(a + b * k, b, q + k);
  }

  /** The remainder of a successor is the successor of the remainder, wrapped. */
  lemma ModSucc(a: int, b: int)
    requires b > 0
    ensures (a + 1) % b == (a % b + 1) % b
  {
    var q := a / b;
    var r := a % b;
    assert a == b * q + r;
    if r + 1 < b {
      DivUnique(a + 1, b, q);
      DivUnique(r + 1, b, 0);
    } else {
      assert a + 1 == b * (q + 1);
      DivUnique(a + 1, b, q + 1);
      DivUnique(r + 1, b, 1);
    }
  }

  lemma MulMonotone(b: int, x: int, y: int)
    requires b > 0 && x <= y
    ensures b * x <= b * y
  {
    assert b * y - b * x == b * (y - x);
  }

  // ---------------------------------------------------------------------
  // Decimal text of an integral number.

  predicate IsDigit(c: char) {
    '0' <= c <= '9'
  }

  predicate AllDigits(s: string) {
    forall i :: 0 <= i < |s| ==> IsDigit(s[i])
  }

  function DigitChar(d: int): (c: char)
    requires 0 <= d < 10
    ensures IsDigit(c)
  {
    "0123456789"[d]
  }

  function DigitValue(c: char): int {
    c as int - '0' as int
  }

  /** The shortest decimal numeral of `n`, most significant digit first. */
  function NatToDecimal(n: nat): (s: string)
    ensures |s| > 0
    ensures AllDigits(s)
    ensures s[0] == '0' ==> n == 0
    decreases n
  {
    if n < 10 then [DigitChar(n)] else NatToDecimal(n / 10) + [DigitChar(n % 10)]
  }

  /** The number a string of digits denotes. */
  function ParseDigits(s: string): nat
    requires AllDigits(s)
    decreases |s|
  {
    if s == [] then 0
    else ParseDigits(s[..|s| - 1]) * 10 + DigitValue(s[|s| - 1])
  }

  /**
   `${i}` for an integral number: an optional minus sign and the decimal
   digits. Exponent notation only starts at 10^21, so this is exact for
   every 32-bit value.
   */
  function IntToDecimal(i: int): (s: string)
    ensures |s| > 0
    ensures s[0] == '-' <==> i < 0
    ensures i < 0 ==> |s| > 1 && AllDigits(s[1..]) && s[1] != '0'
    ensures i >= 0 ==> AllDigits(s) && (s[0] == '0' ==> i == 0)
  {
    if i < 0 then "-" + NatToDecimal(-i) else NatToDecimal(i)
  }

  /** Reads back the text `IntToDecimal` produces. */
  function ParseDecimal(s: string): int {
    if |s| > 0 && s[0] == '-' && AllDigits(s[1..]) then 0 - ParseDigits(s[1..])
    else if AllDigits(s) then ParseDigits(s)
    else 0
  }

  lemma {:induction false} NatDecimalRoundTrip(n: nat)
    ensures ParseDigits(NatToDecimal(n)) == n
    decreases n
  {
    var s := NatToDecimal(n);
    if n < 10 {
      assert s == [DigitChar(n)];
      assert s[..0] == [];
    } else {
      NatDecimalRoundTrip(n / 10);
      var p := NatToDecimal(n / 10);
      assert s[..|s| - 1] == p;
      assert s[|s| - 1] == DigitChar(n % 10);
    }
  }

  /** The decimal text of an integer determines it. */
  lemma DecimalRoundTrip(i: int)
    ensures ParseDecimal(IntToDecimal(i)) == i
  {
    var s := IntToDecimal(i);
    if i < 0 {
      assert s[1..] == NatToDecimal(-i);
      NatDecimalRoundTrip(-i);
    } else {
      NatDecimalRoundTrip(i);
    }
  }

  lemma DecimalInjective(i: int, j: int)
    requires IntToDecimal(i) == IntToDecimal(j)
    ensures i == j
  {
    DecimalRoundTrip(i);
    DecimalRoundTrip(j);
  }
}
